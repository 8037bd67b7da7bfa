/** Applying an import plan: what stays unique after every action, and what a second import does. */
module ImportRuns {
  import opened Bytes
  import opened ImportPlan

  function Write(s: Store, a: Action): Store {
    match a.kind
    case NoOp => s
    case Update => s.(live := s.live[a.id := Job(a.name, a.content, a.revision + 1, a.cursor)])
    case Create => s.(live := s.live[a.id := Job(a.name, a.content, 1, a.cursor)])
  }

  function After(s: Store, plan: seq<Action>, n: nat): Store
    requires n <= |plan|
  {
    if n == 0 then s else Write(After(s, plan, n - 1), plan[n - 1])
  }

  /** The checks inside the applying transaction, all made before anything is written. */
  predicate Accepts(s: Store, a: Action)
    requires Sound(s)
  {
    && Resolve(s, a.resolution.id, a.resolution.name) == a.resolution
    && match a.kind
       case Create => a.id !in Owned(s) && ByName(s, a.name).None?
       case Update => a.id in s.live && s.live[a.id].revision == a.revision && NoOther(s, a)
       case NoOp => a.id in s.live && NoOther(s, a) && s.live[a.id] == Job(a.name, a.content, a.revision, a.cursor)
  }

  predicate NoOther(s: Store, a: Action) {
    forall b | b in s.live && s.live[b].name == a.name :: b == a.id
  }

  predicate AcceptsAll(s: Store, plan: seq<Action>)
    requires Sound(s)
  {
    forall i | 0 <= i < |plan| :: Accepts(s, plan[i])
  }

  /** Applying a plan: refused as a whole, or every action and the settings. */
  function ApplyImport(s: Store, plan: seq<Action>, settings: string): Option<Store>
    requires Sound(s)
  {
    if AcceptsAll(s, plan) then Some(After(s, plan, |plan|).(settings := settings)) else None
  }

  /** No two actions are about the same job or give out the same name. */
  predicate Separate(plan: seq<Action>) {
    forall i, j | 0 <= i < j < |plan| :: plan[i].id != plan[j].id && plan[i].name != plan[j].name
  }

  /** The job an action is about is live with the name and content the action gives it. */
  predicate Done(t: Store, a: Action) {
    a.id in t.live && t.live[a.id].name == a.name && t.live[a.id].content == a.content
  }

  ghost predicate Untouched(plan: seq<Action>, n: nat, b: Id)
    requires n <= |plan|
  {
    forall i | 0 <= i < n :: plan[i].id != b
  }

  /** The first `n` actions have been written and nothing else has changed. */
  ghost predicate Tracks(s: Store, plan: seq<Action>, n: nat, t: Store)
    requires n <= |plan|
  {
    && t.removed == s.removed && t.settings == s.settings
    && (forall i | 0 <= i < n :: Done(t, plan[i]))
    && (forall b | b in t.live && Untouched(plan, n, b) :: b in s.live && t.live[b] == s.live[b])
  }

  /** Writing an action does it and leaves every other job alone. */
  lemma WriteDoes(s: Store, t: Store, a: Action)
    requires Sound(s) && Accepts(s, a)
    requires a.kind == NoOp ==> a.id in t.live && t.live[a.id] == s.live[a.id]
    ensures Done(Write(t, a), a)
    ensures Write(t, a).removed == t.removed && Write(t, a).settings == t.settings
    ensures forall b | b != a.id :: (b in Write(t, a).live <==> b in t.live) && (b in t.live ==> Write(t, a).live[b] == t.live[b])
  {
  }

  lemma {:induction false} StillLive(s: Store, plan: seq<Action>, n: nat, b: Id)
    requires n <= |plan| && b in s.live && Untouched(plan, n, b)
    ensures b in After(s, plan, n).live && After(s, plan, n).live[b] == s.live[b]
    decreases n
  {
    if n > 0 {
      assert plan[n - 1].id != b;
      assert Untouched(plan, n - 1, b);
      StillLive(s, plan, n - 1, b);
    }
  }

  lemma OthersUntouched(plan: seq<Action>, n: nat)
    requires n < |plan| && Separate(plan)
    ensures Untouched(plan, n, plan[n].id)
  {
  }

  lemma {:induction false} AfterTracks(s: Store, plan: seq<Action>, n: nat)
    requires Sound(s) && AcceptsAll(s, plan) && Separate(plan) && n <= |plan|
    ensures Tracks(s, plan, n, After(s, plan, n))
    decreases n
  {
    if n > 0 {
      AfterTracks(s, plan, n - 1);
      var t, a := After(s, plan, n - 1), plan[n - 1];
      assert Accepts(s, a);
      OthersUntouched(plan, n - 1);
      if a.kind == NoOp { StillLive(s, plan, n - 1, a.id); }
      WriteDoes(s, t, a);
      TracksStep(s, plan, n, t, Write(t, a));
    }
  }

  lemma TracksStep(s: Store, plan: seq<Action>, n: nat, t: Store, u: Store)
    requires 0 < n <= |plan| && Separate(plan) && Tracks(s, plan, n - 1, t)
    requires Done(u, plan[n - 1]) && u.removed == t.removed && u.settings == t.settings
    requires forall b | b != plan[n - 1].id :: (b in u.live <==> b in t.live) && (b in t.live ==> u.live[b] == t.live[b])
    ensures Tracks(s, plan, n, u)
  {
    forall i | 0 <= i < n ensures Done(u, plan[i]) {
      if i < n - 1 {
        assert Done(t, plan[i]) && plan[i].id != plan[n - 1].id;
      }
    }
    forall b | b in u.live && Untouched(plan, n, b) ensures b in s.live && u.live[b] == s.live[b] {
      assert plan[n - 1].id != b;
      assert Untouched(plan, n - 1, b);
    }
  }

  /**
    Live names and IDs stay unique after every single action of an accepted plan: names because
    no action gives out a name another live job has, IDs because a created ID is always new.
  */
  lemma UniqueAfterEveryAction(s: Store, plan: seq<Action>, n: nat)
    requires Sound(s) && AcceptsAll(s, plan) && Separate(plan) && n <= |plan|
    ensures Sound(After(s, plan, n))
    ensures n < |plan| && plan[n].kind == Create ==> plan[n].id !in Owned(After(s, plan, n))
  {
    AfterTracks(s, plan, n);
    var t := After(s, plan, n);
    forall a, b | a in t.live && b in t.live && t.live[a].name == t.live[b].name ensures a == b {
      NameOwner(s, plan, n, t, a, b);
    }
    forall b | b in t.live ensures b !in s.removed {
      if !Untouched(plan, n, b) {
        var i :| 0 <= i < n && plan[i].id == b;
        assert Accepts(s, plan[i]);
      }
    }
    if n < |plan| && plan[n].kind == Create {
      assert Accepts(s, plan[n]);
      if plan[n].id in t.live {
        assert Untouched(plan, n, plan[n].id);
      }
    }
  }

  lemma NameOwner(s: Store, plan: seq<Action>, n: nat, t: Store, a: Id, b: Id)
    requires Sound(s) && AcceptsAll(s, plan) && Separate(plan) && n <= |plan| && Tracks(s, plan, n, t)
    requires a in t.live && b in t.live && t.live[a].name == t.live[b].name
    ensures a == b
  {
    if Untouched(plan, n, a) && Untouched(plan, n, b) {
    } else if Untouched(plan, n, a) {
      var i :| 0 <= i < n && plan[i].id == b;
      assert Done(t, plan[i]);
      TouchedOwnsName(s, plan, n, t, i, a);
    } else {
      var i :| 0 <= i < n && plan[i].id == a;
      assert Done(t, plan[i]);
      if Untouched(plan, n, b) {
        TouchedOwnsName(s, plan, n, t, i, b);
      } else {
        var j :| 0 <= j < n && plan[j].id == b;
        assert Done(t, plan[i]) && Done(t, plan[j]);
      }
    }
  }

  lemma TouchedOwnsName(s: Store, plan: seq<Action>, n: nat, t: Store, i: nat, b: Id)
    requires Sound(s) && AcceptsAll(s, plan) && n <= |plan| && Tracks(s, plan, n, t) && i < n
    requires b in t.live && Untouched(plan, n, b)
    ensures t.live[b].name != plan[i].name
  {
    assert Accepts(s, plan[i]);
    assert b in s.live && t.live[b] == s.live[b];
  }

  /** No two sources of a document share an ID or a name; reading a document refuses it otherwise. */
  predicate Distinct(docs: seq<Source>) {
    forall i, j | 0 <= i < j < |docs| :: docs[i].id != docs[j].id && docs[i].name != docs[j].name
  }

  /** The duplicate checks made while a document is read. */
  method CheckDuplicates(docs: seq<Source>) returns (ok: bool)
    ensures ok <==> Distinct(docs)
  {
    var ids, names := {}, {};
    for n := 0 to |docs|
      invariant forall id :: id in ids <==> exists i | 0 <= i < n :: docs[i].id == id
      invariant forall name :: name in names <==> exists i | 0 <= i < n :: docs[i].name == name
      invariant Distinct(docs[..n])
    {
      if docs[n].id in ids || docs[n].name in names { return false; }
      ids := ids + {docs[n].id};
      names := names + {docs[n].name};
    }
    assert docs[..|docs|] == docs;
    return true;
  }

  lemma {:induction false} TakenGrows(s: Store, docs: seq<Source>, alloc: Alloc, i: nat, n: nat)
    requires Sound(s) && i <= n <= |docs|
    ensures Taken(s, docs, alloc, i) <= Taken(s, docs, alloc, n)
    decreases n
  {
    if i < n { TakenGrows(s, docs, alloc, i, n - 1); }
  }

  /** A created ID belongs to no job, live or removed, and to no job created earlier in the plan. */
  lemma NewIdIsNew(s: Store, docs: seq<Source>, alloc: Alloc, avoid: set<Id>, i: nat, n: nat)
    requires Sound(s) && i <= n < |docs| && Fresh(alloc, avoid)
    ensures NewId(s, docs, alloc, n) !in Owned(s)
    ensures i < n && Destination(s, docs[i]).None? ==> NewId(s, docs, alloc, i) != NewId(s, docs, alloc, n)
  {
    TakenGrows(s, docs, alloc, 0, n);
    if i < n { TakenGrows(s, docs, alloc, i + 1, n); }
  }

  /** Each action gives its source's name and content to the source's destination, or else to a new job. */
  ghost predicate About(s: Store, docs: seq<Source>, alloc: Alloc, plan: seq<Action>)
    requires Sound(s)
  {
    && |plan| == |docs|
    && (forall i | 0 <= i < |docs| :: plan[i].name == docs[i].name && plan[i].content == docs[i].content)
    && (forall i | 0 <= i < |docs| :: plan[i].id == Target(s, docs, alloc, i))
  }

  function Target(s: Store, docs: seq<Source>, alloc: Alloc, i: nat): Id
    requires Sound(s) && i < |docs|
  {
    if Destination(s, docs[i]).Some? then Destination(s, docs[i]).value else NewId(s, docs, alloc, i)
  }

  lemma PlannedAbout(s: Store, docs: seq<Source>, alloc: Alloc, now: int, plan: seq<Action>)
    requires Sound(s) && |plan| == |docs| && Planned(s, docs, alloc, now, plan)
    ensures About(s, docs, alloc, plan)
  {
  }

  /** A plan is accepted by the store it was made against. */
  lemma PlanIsAccepted(s: Store, docs: seq<Source>, alloc: Alloc, avoid: set<Id>, now: int, plan: seq<Action>)
    requires Sound(s) && Resolvable(s, docs) && Fresh(alloc, avoid)
    requires |plan| == |docs| && Planned(s, docs, alloc, now, plan)
    ensures AcceptsAll(s, plan)
  {
    forall i | 0 <= i < |plan| ensures Accepts(s, plan[i]) {
      assert plan[i] == PlanAt(s, docs, alloc, now, i);
      NewIdIsNew(s, docs, alloc, avoid, i, i);
      Plan1Accepted(s, docs[i], NewId(s, docs, alloc, i), now);
    }
  }

  lemma Plan1Accepted(s: Store, src: Source, newId: Id, now: int)
    requires Sound(s) && !Mixed(s, src) && newId !in Owned(s)
    ensures Accepts(s, Plan1(s, src, newId, now))
  {
  }

  /** The actions of a plan are about different jobs. */
  lemma PlanIsSeparate(s: Store, docs: seq<Source>, alloc: Alloc, avoid: set<Id>, plan: seq<Action>)
    requires Sound(s) && Resolvable(s, docs) && Distinct(docs) && Fresh(alloc, avoid) && About(s, docs, alloc, plan)
    ensures Separate(plan)
  {
    forall i, j | 0 <= i < j < |plan| ensures plan[i].id != plan[j].id && plan[i].name != plan[j].name {
      TargetsDiffer(s, docs, alloc, avoid, i, j);
    }
  }

  lemma TargetsDiffer(s: Store, docs: seq<Source>, alloc: Alloc, avoid: set<Id>, i: nat, j: nat)
    requires Sound(s) && Fresh(alloc, avoid) && i < j < |docs| && Apart(s, docs[i], docs[j])
    ensures Target(s, docs, alloc, i) != Target(s, docs, alloc, j)
  {
    NewIdIsNew(s, docs, alloc, avoid, i, j);
    NewIdIsNew(s, docs, alloc, avoid, i, i);
  }

  /**
    A plan made against one store and applied to another, however that changed in between: if it is
    accepted, names and IDs stay unique after every action, every source ends up live with its name
    and content under the ID planned for it, and no other job changes.
  */
  lemma AcceptedImport(s: Store, docs: seq<Source>, alloc: Alloc, avoid: set<Id>, now: int, plan: seq<Action>, u: Store, n: nat)
    requires Sound(s) && Resolvable(s, docs) && Distinct(docs) && Fresh(alloc, avoid)
    requires |plan| == |docs| && Planned(s, docs, alloc, now, plan) && n <= |plan|
    requires Sound(u) && AcceptsAll(u, plan)
    ensures Sound(After(u, plan, n)) && Tracks(u, plan, n, After(u, plan, n))
    ensures n < |plan| && plan[n].kind == Create ==> plan[n].id !in Owned(After(u, plan, n))
    ensures forall i | 0 <= i < n :: SettledAs(After(u, plan, n), plan[i].id, docs[i])
  {
    PlannedAbout(s, docs, alloc, now, plan);
    PlanIsSeparate(s, docs, alloc, avoid, plan);
    UniqueAfterEveryAction(u, plan, n);
    AfterTracks(u, plan, n);
    forall i | 0 <= i < n ensures SettledAs(After(u, plan, n), plan[i].id, docs[i]) {
      assert Done(After(u, plan, n), plan[i]);
    }
  }

  predicate SettledAs(t: Store, id: Id, src: Source) {
    id in t.live && t.live[id].name == src.name && t.live[id].content == src.content
  }

  /**
    A document that was applied is wholly in the store: planning it again resolves every source to
    the job it made or updated, and has nothing left to do.
  */
  lemma ReimportDoesNothing(s: Store, doc: Document, alloc: Alloc, now: int, plan: seq<Action>, again: Alloc, later: int, t: Store)
    requires Sound(s) && Resolvable(s, doc.jobs) && Distinct(doc.jobs)
    requires Fresh(alloc, set i | 0 <= i < |doc.jobs| :: doc.jobs[i].id)
    requires |plan| == |doc.jobs| && Planned(s, doc.jobs, alloc, now, plan)
    requires ApplyImport(s, plan, doc.settings) == Some(t)
    ensures Sound(t) && Resolvable(t, doc.jobs) && t.settings == doc.settings
    ensures forall i | 0 <= i < |doc.jobs| :: PlanAt(t, doc.jobs, again, later, i).kind == NoOp
  {
    var docs := doc.jobs;
    var avoid := set i | 0 <= i < |docs| :: docs[i].id;
    PlanIsAccepted(s, docs, alloc, avoid, now, plan);
    PlannedAbout(s, docs, alloc, now, plan);
    PlanIsSeparate(s, docs, alloc, avoid, plan);
    UniqueAfterEveryAction(s, plan, |plan|);
    AfterTracks(s, plan, |plan|);
    SettledStore(s, docs, alloc, avoid, plan, After(s, plan, |plan|).(settings := doc.settings));
  }

  lemma {:induction false} NoOpsWriteNothing(s: Store, plan: seq<Action>, n: nat)
    requires n <= |plan| && forall i | 0 <= i < |plan| :: plan[i].kind == NoOp
    ensures After(s, plan, n) == s
    decreases n
  {
    if n > 0 { NoOpsWriteNothing(s, plan, n - 1); }
  }

  /** Importing a document a second time is accepted and leaves the whole store as it was. */
  lemma ImportIsIdempotent(s: Store, doc: Document, alloc: Alloc, now: int, plan: seq<Action>, t: Store,
                           again: Alloc, later: int, second: seq<Action>)
    requires Sound(s) && Resolvable(s, doc.jobs) && Distinct(doc.jobs)
    requires Fresh(alloc, set i | 0 <= i < |doc.jobs| :: doc.jobs[i].id) && Fresh(again, {})
    requires |plan| == |doc.jobs| && Planned(s, doc.jobs, alloc, now, plan)
    requires ApplyImport(s, plan, doc.settings) == Some(t)
    requires Sound(t) && |second| == |doc.jobs| && Planned(t, doc.jobs, again, later, second)
    ensures ApplyImport(t, second, doc.settings) == Some(t)
  {
    ReimportDoesNothing(s, doc, alloc, now, plan, again, later, t);
    PlanIsAccepted(t, doc.jobs, again, {}, later, second);
    forall i | 0 <= i < |second| ensures second[i].kind == NoOp {
      assert second[i] == PlanAt(t, doc.jobs, again, later, i);
    }
    NoOpsWriteNothing(t, second, |second|);
  }

  lemma SettledStore(s: Store, docs: seq<Source>, alloc: Alloc, avoid: set<Id>, plan: seq<Action>, t: Store)
    requires Sound(s) && Distinct(docs) && Fresh(alloc, avoid) && About(s, docs, alloc, plan) && Separate(plan)
    requires forall j | 0 <= j < |docs| :: docs[j].id in avoid
    requires Sound(t) && Tracks(s, plan, |plan|, t.(settings := s.settings))
    ensures Resolvable(t, docs)
    ensures forall i | 0 <= i < |docs| :: SettledIn(t, docs[i])
  {
    forall i | 0 <= i < |docs| ensures Destination(t, docs[i]) == Some(plan[i].id) && !Mixed(t, docs[i]) && SettledIn(t, docs[i]) {
      assert Done(t.(settings := s.settings), plan[i]);
      if docs[i].id in t.live { OwnIdResolves(s, docs, alloc, avoid, plan, i, t.(settings := s.settings)); }
      Settles(t, docs[i], plan[i]);
    }
    forall i, j | 0 <= i < j < |docs| ensures Apart(t, docs[i], docs[j]) {
      assert plan[i].id != plan[j].id;
    }
  }

  /** A source resolves to a live job that is already as the source says. */
  predicate SettledIn(t: Store, src: Source)
    requires Sound(t)
  {
    var d := Destination(t, src);
    d.Some? && t.live[d.value].name == src.name && t.live[d.value].content == src.content
  }

  lemma Settles(t: Store, src: Source, a: Action)
    requires Sound(t) && Done(t, a) && a.name == src.name && a.content == src.content
    requires src.id in t.live ==> a.id == src.id
    ensures Destination(t, src) == Some(a.id) && !Mixed(t, src) && SettledIn(t, src)
  {
  }

  /** A source whose own ID is live afterwards is the one that job came from. */
  lemma OwnIdResolves(s: Store, docs: seq<Source>, alloc: Alloc, avoid: set<Id>, plan: seq<Action>, i: nat, t: Store)
    requires Sound(s) && Distinct(docs) && Fresh(alloc, avoid) && About(s, docs, alloc, plan) && i < |docs|
    requires forall j | 0 <= j < |docs| :: docs[j].id in avoid
    requires Tracks(s, plan, |plan|, t) && docs[i].id in t.live
    ensures plan[i].id == docs[i].id
  {
    var id := docs[i].id;
    if id !in s.live {
      assert !Untouched(plan, |plan|, id);
      var j :| 0 <= j < |plan| && plan[j].id == id;
      assert docs[i].id in avoid;
      OwnTarget(s, docs, alloc, avoid, j, id);
    }
  }

  /** A created job that carries some source's ID carries its own source's. */
  lemma OwnTarget(s: Store, docs: seq<Source>, alloc: Alloc, avoid: set<Id>, j: nat, id: Id)
    requires Sound(s) && Fresh(alloc, avoid) && j < |docs| && id in avoid && id !in s.live
    requires Target(s, docs, alloc, j) == id
    ensures docs[j].id == id
  {
  }
}
