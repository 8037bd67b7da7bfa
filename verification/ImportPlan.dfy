/** Planning an import against the jobs that are live, applying the plan, and planning again. */
module ImportPlan {
  import opened Bytes

  type Id = string

  /** Everything about a job that an export carries besides its identity and name. */
  datatype Content = Content(description: Option<string>, tags: seq<string>, enabled: bool, schedule: string, definition: string)

  datatype Job = Job(name: string, content: Content, revision: nat, cursor: int)

  /** Live jobs by ID, the IDs of removed jobs, and the settings. */
  datatype Store = Store(live: map<Id, Job>, removed: set<Id>, settings: string)

  datatype Source = Source(id: Id, name: string, content: Content)

  datatype Document = Document(jobs: seq<Source>, settings: string)

  /** How a source resolved when it was planned; applying checks that it still does. */
  datatype Resolution = Resolution(id: Id, name: string, byId: Option<Id>, byName: Option<Id>)

  datatype Kind = NoOp | Update | Create

  /** One planned job: the job it is about, what that job is to be, and the revision this is based on. */
  datatype Action = Action(kind: Kind, resolution: Resolution, id: Id, name: string, content: Content, revision: nat, cursor: int)

  predicate UniqueNames(live: map<Id, Job>) {
    forall a, b | a in live && b in live && live[a].name == live[b].name :: a == b
  }

  /** What the database itself guarantees. */
  predicate Sound(s: Store) {
    UniqueNames(s.live) && s.removed !! s.live.Keys
  }

  function Owned(s: Store): set<Id> { s.live.Keys + s.removed }

  /** The one live job of a name. */
  function ByName(s: Store, name: string): (r: Option<Id>)
    requires Sound(s)
    ensures r.Some? ==> r.value in s.live && s.live[r.value].name == name
    ensures r.None? ==> forall a | a in s.live :: s.live[a].name != name
  {
    if a :| a in s.live && s.live[a].name == name then Some(a) else None
  }

  /** The live job a source resolves to: by its ID first, else by its name. */
  function Destination(s: Store, src: Source): Option<Id>
    requires Sound(s)
  {
    if src.id in s.live then Some(src.id) else ByName(s, src.name)
  }

  /** ID and name resolve to two different live jobs. */
  predicate Mixed(s: Store, src: Source)
    requires Sound(s)
  {
    src.id in s.live && ByName(s, src.name).Some? && ByName(s, src.name).value != src.id
  }

  /** Among the first `n` sources none is mixed and no two resolve to the same live job. */
  predicate ResolvableUpTo(s: Store, docs: seq<Source>, n: nat)
    requires Sound(s) && n <= |docs|
  {
    && (forall i | 0 <= i < n :: !Mixed(s, docs[i]))
    && (forall i, j | 0 <= i < j < n :: Apart(s, docs[i], docs[j]))
  }

  predicate Apart(s: Store, a: Source, b: Source)
    requires Sound(s)
  {
    Destination(s, a).Some? ==> Destination(s, a) != Destination(s, b)
  }

  predicate Resolvable(s: Store, docs: seq<Source>)
    requires Sound(s)
  {
    ResolvableUpTo(s, docs, |docs|)
  }

  /** Allocates an ID for a source whose own ID is taken. */
  type Alloc = (Id, set<Id>) -> Id

  /** Allocated IDs are new. */
  ghost predicate Fresh(alloc: Alloc, avoid: set<Id>) {
    forall id, owned :: alloc(id, owned) !in owned && alloc(id, owned) !in avoid
  }

  /** The IDs that are taken before source `n` is planned. */
  function Taken(s: Store, docs: seq<Source>, alloc: Alloc, n: nat): set<Id>
    requires Sound(s) && n <= |docs|
    decreases n, 0
  {
    if n == 0 then Owned(s)
    else if Destination(s, docs[n - 1]).Some? then Taken(s, docs, alloc, n - 1)
    else Taken(s, docs, alloc, n - 1) + {NewId(s, docs, alloc, n - 1)}
  }

  function NewId(s: Store, docs: seq<Source>, alloc: Alloc, n: nat): Id
    requires Sound(s) && n < |docs|
    decreases n, 1
  {
    if docs[n].id in Taken(s, docs, alloc, n) then alloc(docs[n].id, Taken(s, docs, alloc, n)) else docs[n].id
  }

  function Resolve(s: Store, id: Id, name: string): Resolution
    requires Sound(s)
  {
    Resolution(id, name, if id in s.live then Some(id) else None, ByName(s, name))
  }

  /** What the plan does with a source that resolved to a live job, or to none. */
  function Plan1(s: Store, src: Source, newId: Id, now: int): Action
    requires Sound(s)
  {
    var d, resolution := Destination(s, src), Resolve(s, src.id, src.name);
    if d.None? then Action(Create, resolution, newId, src.name, src.content, 0, now)
    else
      var job := s.live[d.value];
      if job.name == src.name && job.content == src.content then
        Action(NoOp, resolution, d.value, src.name, src.content, job.revision, job.cursor)
      else
        Action(Update, resolution, d.value, src.name, src.content, job.revision,
               if job.content.schedule != src.content.schedule then now else job.cursor)
  }

  function PlanAt(s: Store, docs: seq<Source>, alloc: Alloc, now: int, n: nat): Action
    requires Sound(s) && n < |docs|
  {
    Plan1(s, docs[n], NewId(s, docs, alloc, n), now)
  }

  ghost predicate Planned(s: Store, docs: seq<Source>, alloc: Alloc, now: int, plan: seq<Action>)
    requires Sound(s)
  {
    |plan| <= |docs| && forall i | 0 <= i < |plan| :: plan[i] == PlanAt(s, docs, alloc, now, i)
  }

  /** The destinations the first `n` sources resolve to. */
  ghost function Claimed(s: Store, docs: seq<Source>, n: nat): set<Id>
    requires Sound(s) && n <= |docs|
  {
    if n == 0 then {}
    else if Destination(s, docs[n - 1]).Some? then Claimed(s, docs, n - 1) + {Destination(s, docs[n - 1]).value}
    else Claimed(s, docs, n - 1)
  }

  lemma {:induction false} ClaimedMember(s: Store, docs: seq<Source>, n: nat, id: Id)
    requires Sound(s) && n <= |docs|
    ensures id in Claimed(s, docs, n) <==> exists i | 0 <= i < n :: Destination(s, docs[i]) == Some(id)
    decreases n
  {
    if n > 0 { ClaimedMember(s, docs, n - 1, id); }
  }

  /** The planning loop, with its growing sets of owned IDs and claimed destinations. */
  method PlanImport(s: Store, docs: seq<Source>, alloc: Alloc, now: int) returns (plan: Option<seq<Action>>)
    requires Sound(s)
    ensures plan.Some? <==> Resolvable(s, docs)
    ensures plan.Some? ==> |plan.value| == |docs| && Planned(s, docs, alloc, now, plan.value)
  {
    var owned, claimed := Owned(s), {};
    var jobs: seq<Action> := [];
    for n := 0 to |docs|
      invariant owned == Taken(s, docs, alloc, n) && claimed == Claimed(s, docs, n)
      invariant |jobs| == n && Planned(s, docs, alloc, now, jobs) && ResolvableUpTo(s, docs, n)
    {
      var src := docs[n];
      if Mixed(s, src) { return None; }
      ResolvableStep(s, docs, n);
      var destination := Destination(s, src);
      if destination.Some? {
        ClaimedMember(s, docs, n, destination.value);
        if destination.value in claimed {
          ghost var i :| 0 <= i < n && Destination(s, docs[i]) == destination;
          assert !Apart(s, docs[i], docs[n]);
          return None;
        }
        claimed := claimed + {destination.value};
        PlannedStep(s, docs, alloc, now, jobs);
        jobs := jobs + [Plan1(s, src, src.id, now)];
      } else {
        var id := if src.id in owned then alloc(src.id, owned) else src.id;
        owned := owned + {id};
        PlannedStep(s, docs, alloc, now, jobs);
        jobs := jobs + [Plan1(s, src, id, now)];
      }
    }
    return Some(jobs);
  }

  lemma ResolvableStep(s: Store, docs: seq<Source>, n: nat)
    requires Sound(s) && n < |docs| && ResolvableUpTo(s, docs, n) && !Mixed(s, docs[n])
    ensures (Destination(s, docs[n]).None? || Destination(s, docs[n]).value !in Claimed(s, docs, n)) ==> ResolvableUpTo(s, docs, n + 1)
  {
    if Destination(s, docs[n]).Some? { ClaimedMember(s, docs, n, Destination(s, docs[n]).value); }
  }

  lemma PlannedStep(s: Store, docs: seq<Source>, alloc: Alloc, now: int, plan: seq<Action>)
    requires Sound(s) && |plan| < |docs| && Planned(s, docs, alloc, now, plan)
    ensures Planned(s, docs, alloc, now, plan + [PlanAt(s, docs, alloc, now, |plan|)])
  {
  }
}
