/** Reserving for records whose object slots are filled in later. */
module JournalGrowth {
  import opened Bytes
  import opened JournalCodec
  import opened Journal

  const USIZE_MAX := 0xFFFF_FFFF_FFFF_FFFF
  const OPEN_BRACE: Byte := 0x7B
  const CLOSE_BRACE: Byte := 0x7D
  const NULL: Bytes := [0x6E, 0x75, 0x6C, 0x6C]

  predicate IsObject(text: Bytes) {
    text != [] && text[0] == OPEN_BRACE && text[|text| - 1] == CLOSE_BRACE
  }

  /** Extra payload bytes for `repetitions` slots now holding `slot` (or null) and later an object of the maximum size. */
  function ObjectGrowth(slot: Option<Bytes>, maximum: nat, repetitions: nat): (g: Option<nat>)
    ensures g.Some? ==> |SlotText(slot)| <= maximum && g.value == (maximum - |SlotText(slot)|) * repetitions
    ensures g.Some? <==>
              && repetitions > 0 && |SlotText(slot)| <= maximum <= FRAME_LIMIT - OVERHEAD && (slot.Some? ==> IsObject(slot.value))
              && (maximum - |SlotText(slot)|) * repetitions <= USIZE_MAX
  {
    if repetitions == 0 || maximum > FRAME_LIMIT - OVERHEAD then None
    else if slot.Some? && (|slot.value| > FRAME_LIMIT - OVERHEAD || !IsObject(slot.value)) then None
    else if maximum < |SlotText(slot)| || (maximum - |SlotText(slot)|) * repetitions > USIZE_MAX then None
    else Some((maximum - |SlotText(slot)|) * repetitions)
  }

  /** What the outer schema emits for the slot as it stands. */
  function SlotText(slot: Option<Bytes>): Bytes {
    if slot.Some? then slot.value else NULL
  }

  function Preflight<R>(c: Codec<R>, worst: R, frames: nat, growth: nat): (res: Option<Reservation>)
    ensures res.Some? ==> WithinBudget(0, 0, res.value) && res.value.frames == frames
    ensures res.Some? ==> c.ser(worst).Some? && res.value.maxFrame == |c.ser(worst).value| + OVERHEAD + growth
    ensures res.Some? <==>
              && c.ser(worst).Some? && frames > 0 && |c.ser(worst).value| + growth > 0 && |c.ser(worst).value| + OVERHEAD + growth <= FRAME_LIMIT
              && frames <= FRAME_COUNT && frames * (|c.ser(worst).value| + OVERHEAD + growth) <= JOURNAL_LIMIT
  {
    var f := Frame(c, worst, ZERO);
    if f.None? || |f.value| + growth > USIZE_MAX then None
    else
      var r := Reservation(frames, |f.value| + growth);
      if WithinBudget(0, 0, r) then Some(r) else None
  }

  /** One slot of a record: what it holds now and the largest object it may later hold. */
  datatype Slot = Slot(now: Option<Bytes>, maximum: nat)

  /** The outer text around the slots, with `texts` filled in. */
  function Filled(outer: seq<Bytes>, texts: seq<Bytes>): Bytes
    requires |outer| == |texts| + 1
  {
    if texts == [] then outer[0] else outer[0] + texts[0] + Filled(outer[1..], texts[1..])
  }

  function Texts(slots: seq<Slot>): (ts: seq<Bytes>)
    ensures |ts| == |slots|
  {
    if slots == [] then [] else [SlotText(slots[0].now)] + Texts(slots[1..])
  }

  /** The growth summed over the slots, one call a slot. */
  function TotalGrowth(slots: seq<Slot>): Option<nat> {
    if slots == [] then Some(0)
    else
      var g, rest := ObjectGrowth(slots[0].now, slots[0].maximum, 1), TotalGrowth(slots[1..]);
      if g.None? || rest.None? then None else Some(g.value + rest.value)
  }

  predicate WithinMaxima(slots: seq<Slot>, texts: seq<Bytes>)
    requires |slots| == |texts|
  {
    forall i | 0 <= i < |slots| :: |texts[i]| <= slots[i].maximum
  }

  lemma {:induction false} FillingBound(outer: seq<Bytes>, slots: seq<Slot>, texts: seq<Bytes>)
    requires |outer| == |slots| + 1 && |texts| == |slots| && WithinMaxima(slots, texts) && TotalGrowth(slots).Some?
    ensures |Filled(outer, texts)| <= |Filled(outer, Texts(slots))| + TotalGrowth(slots).value
    ensures (forall i | 0 <= i < |slots| :: |texts[i]| == slots[i].maximum) ==>
              |Filled(outer, texts)| == |Filled(outer, Texts(slots))| + TotalGrowth(slots).value
    decreases |slots|
  {
    if slots != [] {
      assert Texts(slots)[0] == SlotText(slots[0].now) && Texts(slots)[1..] == Texts(slots[1..]);
      FillingBound(outer[1..], slots[1..], texts[1..]);
    }
  }

  /**
    Room for every filling. A reservation made for a record with the growth of all its slots
    admits, in each of its frames, that record with any objects of admissible size in the slots,
    and it reserves no byte more than the largest of them needs.
  */
  lemma GrowthCoversEveryFilling<R(!new)>(c: Codec<R>, worst: R, frames: nat, outer: seq<Bytes>, slots: seq<Slot>,
                                          filled: R, texts: seq<Bytes>, s: State<R>)
    requires |outer| == |slots| + 1 && |texts| == |slots| && WithinMaxima(slots, texts) && TotalGrowth(slots).Some?
    requires c.ser(worst) == Some(Filled(outer, Texts(slots))) && c.ser(filled) == Some(Filled(outer, texts))
    requires Preflight(c, worst, frames, TotalGrowth(slots).value).Some?
    requires s.reservation.Some? && s.reservation.value.frames > 0
    requires s.reservation.value.maxFrame == Preflight(c, worst, frames, TotalGrowth(slots).value).value.maxFrame
    ensures Admitted(c, s, filled).Some? <==> !s.poisoned && c.valid(filled, Last(s.chain.records))
    ensures (forall i | 0 <= i < |slots| :: |texts[i]| == slots[i].maximum) ==>
              Frame(c, filled, s.chain.digest).Some? && |Frame(c, filled, s.chain.digest).value| == s.reservation.value.maxFrame
  {
    FillingBound(outer, slots, texts);
  }

  /** Counting a slot several times is the same as asking for it that often. */
  lemma RepeatedGrowth(slot: Option<Bytes>, maximum: nat, repetitions: nat)
    requires ObjectGrowth(slot, maximum, repetitions).Some?
    ensures ObjectGrowth(slot, maximum, 1).Some?
    ensures ObjectGrowth(slot, maximum, repetitions).value == repetitions * ObjectGrowth(slot, maximum, 1).value
  {
    OneFits(maximum - |SlotText(slot)|, repetitions);
  }

  lemma OneFits(d: nat, n: nat)
    requires n > 0
    ensures d <= d * n && d * n == n * (d * 1)
  {
  }

  predicate Braced(text: Bytes) {
    |text| > 0 && text[0] == 0x7B && text[|text| - 1] == 0x7D
  }

  /**
    Which slots have a growth, byte by byte: one that is null counts the four bytes of its text, one that
    holds an object has to hold a text in braces, and neither may already exceed the maximum.
  */
  lemma GrowthExactly(slot: Option<Bytes>, maximum: nat, repetitions: nat)
    requires 0 < repetitions && maximum * repetitions <= 0xFFFF_FFFF_FFFF_FFFF
    ensures slot.None? ==> ObjectGrowth(slot, maximum, repetitions) == if 4 <= maximum <= 131004 then Some((maximum - 4) * repetitions) else None
    ensures slot.Some? ==> ObjectGrowth(slot, maximum, repetitions) == if Braced(slot.value) && |slot.value| <= maximum <= 131004 then Some((maximum - |slot.value|) * repetitions) else None
  {
    var now := |SlotText(slot)|;
    if now <= maximum { Scaled(maximum - now, maximum, repetitions); }
  }

  lemma Scaled(a: nat, b: nat, n: nat)
    requires a <= b
    ensures a * n <= b * n
  {
  }
}
