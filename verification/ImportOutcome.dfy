/** What an import leaves of every job, told by the stores before and after it. */
module ImportOutcome {
  import opened Bytes
  import opened ImportPlan
  import opened ImportRuns

  /** Source and job `b`: the job is as the source says, and its revision and cursor have moved only as far as they must. */
  predicate Imported(s: Store, t: Store, src: Source, b: Id, now: int) {
    && b in t.live && t.live[b].name == src.name && t.live[b].content == src.content
    && if b in s.live then
         var was := s.live[b];
         && t.live[b].cursor == (if was.content.schedule == src.content.schedule then was.cursor else now)
         && t.live[b].revision == (if was.name == src.name && was.content == src.content then was.revision else was.revision + 1)
       else
         b !in s.removed && t.live[b].revision == 1 && t.live[b].cursor == now
  }

  /** The job a source is imported into: the one with its ID, else the one with its name, else a new one. */
  ghost predicate RightJob(s: Store, src: Source, b: Id) {
    && (src.id in s.live ==> b == src.id)
    && (src.id !in s.live ==> forall a | a in s.live && s.live[a].name == src.name :: b == a)
    && (src.id !in s.live && (forall a | a in s.live :: s.live[a].name != src.name) ==> b !in s.live && b !in s.removed)
  }

  /** What writing an action leaves of its job. */
  function Result(s: Store, a: Action): Job
    requires a.kind == NoOp ==> a.id in s.live
  {
    match a.kind
    case NoOp => s.live[a.id]
    case Update => Job(a.name, a.content, a.revision + 1, a.cursor)
    case Create => Job(a.name, a.content, 1, a.cursor)
  }

  lemma {:induction false} ResultStays(s: Store, plan: seq<Action>, n: nat, i: nat)
    requires Sound(s) && AcceptsAll(s, plan) && Separate(plan) && i < n <= |plan|
    ensures plan[i].kind == NoOp ==> plan[i].id in s.live
    ensures plan[i].id in After(s, plan, n).live && After(s, plan, n).live[plan[i].id] == Result(s, plan[i])
    decreases n
  {
    assert Accepts(s, plan[i]);
    if i < n - 1 {
      ResultStays(s, plan, n - 1, i);
      assert plan[i].id != plan[n - 1].id;
    } else if plan[i].kind == NoOp {
      OthersUntouched(plan, i);
      StillLive(s, plan, i, plan[i].id);
    }
  }

  lemma PlannedResult(s: Store, src: Source, newId: Id, now: int, a: Action, t: Store)
    requires Sound(s) && newId !in Owned(s) && a == Plan1(s, src, newId, now)
    requires a.kind == NoOp ==> a.id in s.live
    requires a.id in t.live && t.live[a.id] == Result(s, a)
    ensures Imported(s, t, src, a.id, now) && RightJob(s, src, a.id)
  {
  }

  /**
    After an import every source is in the right job, whose cursor is kept unless the schedule changed
    and whose revision is raised exactly if something did; a created job starts at revision 1 and now.
  */
  lemma ImportOutcome(s: Store, docs: seq<Source>, alloc: Alloc, avoid: set<Id>, now: int, plan: seq<Action>, settings: string, t: Store, i: nat)
    requires Sound(s) && Resolvable(s, docs) && Distinct(docs) && Fresh(alloc, avoid)
    requires |plan| == |docs| && Planned(s, docs, alloc, now, plan) && i < |docs|
    requires ApplyImport(s, plan, settings) == Some(t)
    ensures Imported(s, t, docs[i], plan[i].id, now) && RightJob(s, docs[i], plan[i].id)
  {
    PlanIsAccepted(s, docs, alloc, avoid, now, plan);
    PlannedAbout(s, docs, alloc, now, plan);
    PlanIsSeparate(s, docs, alloc, avoid, plan);
    ResultStays(s, plan, |plan|, i);
    NewIdIsNew(s, docs, alloc, avoid, i, i);
    assert plan[i] == PlanAt(s, docs, alloc, now, i);
    PlannedResult(s, docs[i], NewId(s, docs, alloc, i), now, plan[i], t);
  }

  /** An ID that no job owns and no earlier source was given is not taken. */
  lemma {:induction false} NotTaken(s: Store, docs: seq<Source>, alloc: Alloc, n: nat, x: Id)
    requires Sound(s) && n <= |docs| && x !in Owned(s)
    requires forall j | 0 <= j < n :: Destination(s, docs[j]).None? ==> NewId(s, docs, alloc, j) != x
    ensures x !in Taken(s, docs, alloc, n)
    decreases n
  {
    hide NewId, Destination, Owned;
    if n > 0 { NotTaken(s, docs, alloc, n - 1, x); }
  }

  /** A source that resolves to no job keeps its own ID if no job owns it and no earlier source was given it. */
  lemma OwnIdKept(s: Store, docs: seq<Source>, alloc: Alloc, now: int, plan: seq<Action>, i: nat)
    requires Sound(s) && |plan| == |docs| && Planned(s, docs, alloc, now, plan) && i < |docs|
    requires docs[i].id !in Owned(s) && (forall a | a in s.live :: s.live[a].name != docs[i].name)
    requires forall j | 0 <= j < i :: plan[j].id != docs[i].id
    ensures plan[i].kind == Create && plan[i].id == docs[i].id
  {
    assert plan[i] == PlanAt(s, docs, alloc, now, i);
    forall j | 0 <= j < i ensures Destination(s, docs[j]).None? ==> NewId(s, docs, alloc, j) != docs[i].id {
      assert plan[j] == PlanAt(s, docs, alloc, now, j);
    }
    NotTaken(s, docs, alloc, i, docs[i].id);
  }

  /** Which documents are refused, told by the live jobs: an ID and a name of two jobs, or two sources of one job. */
  lemma RefusedExactly(s: Store, docs: seq<Source>)
    requires Sound(s)
    ensures !Resolvable(s, docs) <==>
              || (exists i, b | 0 <= i < |docs| && b in s.live :: docs[i].id in s.live && s.live[b].name == docs[i].name && b != docs[i].id)
              || (exists i, j, b | 0 <= i < j < |docs| && b in s.live :: Hits(s, docs[i], b) && Hits(s, docs[j], b))
  {
    forall i | 0 <= i < |docs|
      ensures Mixed(s, docs[i]) <==> exists b | b in s.live :: docs[i].id in s.live && s.live[b].name == docs[i].name && b != docs[i].id
    {
      MixedMeans(s, docs[i]);
    }
    forall i, j | 0 <= i < j < |docs|
      ensures !Apart(s, docs[i], docs[j]) <==> exists b | b in s.live :: Hits(s, docs[i], b) && Hits(s, docs[j], b)
    {
      ApartMeans(s, docs[i], docs[j]);
    }
  }

  /** A source means a live job: by its ID, or by its name if its ID is not live. */
  predicate Hits(s: Store, src: Source, b: Id) {
    b in s.live && (if src.id in s.live then b == src.id else s.live[b].name == src.name)
  }

  lemma MixedMeans(s: Store, src: Source)
    requires Sound(s)
    ensures Mixed(s, src) <==> exists b | b in s.live :: src.id in s.live && s.live[b].name == src.name && b != src.id
  {
  }

  lemma HitsMeans(s: Store, src: Source, b: Id)
    requires Sound(s)
    ensures Destination(s, src) == Some(b) <==> Hits(s, src, b)
  {
  }

  lemma ApartMeans(s: Store, x: Source, y: Source)
    requires Sound(s)
    ensures !Apart(s, x, y) <==> exists b | b in s.live :: Hits(s, x, b) && Hits(s, y, b)
  {
    forall b ensures Destination(s, x) == Some(b) <==> Hits(s, x, b) { HitsMeans(s, x, b); }
    forall b ensures Destination(s, y) == Some(b) <==> Hits(s, y, b) { HitsMeans(s, y, b); }
    if Destination(s, x).Some? { assert Hits(s, x, Destination(s, x).value); }
  }

  /** An accepted plan overwrites nothing it has not seen: each source still means the same job, at the revision planned for. */
  lemma NoLostUpdate(s: Store, docs: seq<Source>, alloc: Alloc, now: int, plan: seq<Action>, u: Store, i: nat)
    requires Sound(s) && |plan| == |docs| && Planned(s, docs, alloc, now, plan) && i < |docs|
    requires Sound(u) && AcceptsAll(u, plan)
    ensures Destination(u, docs[i]) == Destination(s, docs[i])
    ensures Destination(s, docs[i]).Some? ==>
              plan[i].id in s.live && plan[i].id in u.live && u.live[plan[i].id].revision == s.live[plan[i].id].revision
    ensures plan[i].kind == NoOp ==> plan[i].id in s.live && plan[i].id in u.live && u.live[plan[i].id] == s.live[plan[i].id]
  {
    assert plan[i] == PlanAt(s, docs, alloc, now, i);
    assert Accepts(u, plan[i]);
    assert Resolve(u, docs[i].id, docs[i].name) == Resolve(s, docs[i].id, docs[i].name);
  }

  /** The store has changed nothing since planning that the action for a source is based on. */
  ghost predicate StillGood(s: Store, u: Store, src: Source, a: Action) {
    && (src.id in u.live <==> src.id in s.live)
    && (forall b :: b in u.live && u.live[b].name == src.name <==> b in s.live && s.live[b].name == src.name)
    && if a.kind == Create then a.id !in u.live && a.id !in u.removed
       else if a.kind == Update then a.id in s.live && a.id in u.live && u.live[a.id].revision == s.live[a.id].revision
       else a.id in s.live && a.id in u.live && u.live[a.id] == s.live[a.id]
  }

  lemma SameByName(s: Store, u: Store, name: string)
    requires Sound(s) && Sound(u)
    ensures ByName(s, name) == ByName(u, name) <==> forall b :: b in u.live && u.live[b].name == name <==> b in s.live && s.live[b].name == name
  {
  }

  /** A plan is accepted by another store exactly if nothing any of its actions is based on has changed there. */
  lemma AcceptedExactly(s: Store, docs: seq<Source>, alloc: Alloc, now: int, plan: seq<Action>, u: Store)
    requires Sound(s) && Resolvable(s, docs) && |plan| == |docs| && Planned(s, docs, alloc, now, plan) && Sound(u)
    ensures ApplyImport(u, plan, "").Some? <==> forall i | 0 <= i < |docs| :: StillGood(s, u, docs[i], plan[i])
  {
    forall i | 0 <= i < |docs| ensures Accepts(u, plan[i]) <==> StillGood(s, u, docs[i], plan[i]) {
      assert plan[i] == PlanAt(s, docs, alloc, now, i);
      ActionAccepted(s, u, docs[i], NewId(s, docs, alloc, i), now, plan[i]);
    }
  }

  lemma ActionAccepted(s: Store, u: Store, src: Source, newId: Id, now: int, a: Action)
    requires Sound(s) && Sound(u) && !Mixed(s, src) && a == Plan1(s, src, newId, now)
    ensures Accepts(u, a) <==> StillGood(s, u, src, a)
  {
    SameByName(s, u, src.name);
  }
}
