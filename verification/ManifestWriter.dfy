/** Writing a set of manifest files into a new directory, and taking back only what was written. */
module ManifestWriter {
  import opened Bytes

  type Path = seq<string>

  datatype Kind = Directory | File

  /** What a path names: an object with its identity, not just a name. */
  datatype Node = Node(identity: nat, kind: Kind, content: Bytes)

  type Fs = map<Path, Node>

  /** A path with the object found there when it was recorded. */
  datatype Entry = Entry(path: Path, node: Node)

  datatype Look = Present(node: Node) | Missing | Unavailable

  datatype Removal = Removed | Gone | Replaced | Stuck

  /** Same device and inode number and the same kind of object; contents do not matter. */
  predicate SameObject(a: Node, b: Node) {
    a.identity == b.identity && a.kind == b.kind
  }

  predicate IsDirectory(fs: Fs, path: Path) {
    path == [] || (path in fs && fs[path].kind == Directory)
  }

  predicate Vacant(fs: Fs, path: Path) {
    forall p | p in fs :: !(path < p)
  }

  /** Every object lies in a directory. */
  predicate WellFormed(fs: Fs) {
    forall p | p in fs :: p != [] && IsDirectory(fs, p[..|p| - 1])
  }

  /** Nothing more was removed, or the recorded object was. */
  predicate Took(before: seq<Entry>, after: seq<Entry>, e: Entry) {
    after == before ||
    (|after| == |before| + 1 && before <= after && after[|before|].path == e.path
     && after[|before|].node.identity == e.node.identity && after[|before|].node.kind == e.node.kind)
  }

  /** Everything removed since was recorded: the directory or one of the files. */
  predicate OnlyRecorded(before: seq<Entry>, after: seq<Entry>, record: seq<Entry>) {
    before <= after && forall i | |before| <= i < |after| :: Recorded(after[i], record)
  }

  predicate Recorded(e: Entry, record: seq<Entry>) {
    exists j | 0 <= j < |record| :: record[j].path == e.path && record[j].node.identity == e.node.identity && record[j].node.kind == e.node.kind
  }

  lemma TookRecorded(before: seq<Entry>, middle: seq<Entry>, after: seq<Entry>, e: Entry, record: seq<Entry>)
    requires OnlyRecorded(before, middle, record) && Took(middle, after, e) && e in record
    ensures OnlyRecorded(before, after, record)
  {
    if after != middle {
      assert Recorded(after[|middle|], record);
      forall i | |before| <= i < |after| ensures Recorded(after[i], record) {
        if i < |middle| { assert after[i] == middle[i]; }
      }
    }
  }

  /** The output as it stands while nobody else is at work: what was there before, the directory and the files. */
  ghost predicate Built(fs: Fs, base: Fs, output: Path, directory: Node, created: seq<Entry>) {
    && output in fs && SameObject(fs[output], directory) && output !in base && Vacant(base, output)
    && (forall p :: p in fs <==> p in base || p == output || Names(created, p))
    && (forall p | p in base :: fs[p] == base[p])
    && (forall i | 0 <= i < |created| :: output < created[i].path && |created[i].path| == |output| + 1 && created[i].path in fs && SameObject(fs[created[i].path], created[i].node))
    && (forall i, j | 0 <= i < j < |created| :: created[i].path != created[j].path)
  }

  ghost predicate Names(created: seq<Entry>, p: Path) {
    exists i | 0 <= i < |created| :: created[i].path == p
  }

  lemma BuiltAdd(fs: Fs, base: Fs, output: Path, directory: Node, created: seq<Entry>, e: Entry)
    requires Built(fs, base, output, directory, created) && e.path !in fs && output < e.path && |e.path| == |output| + 1
    ensures Built(fs[e.path := e.node], base, output, directory, created + [e])
  {
    var fs', created' := fs[e.path := e.node], created + [e];
    forall p ensures p in fs' <==> p in base || p == output || Names(created', p) {
      if Names(created, p) {
        var i :| 0 <= i < |created| && created[i].path == p;
        assert created'[i].path == p;
      }
      if p == e.path { assert created'[|created|].path == p; }
    }
  }

  lemma BuiltDrop(fs: Fs, base: Fs, output: Path, directory: Node, created: seq<Entry>)
    requires Built(fs, base, output, directory, created) && created != []
    ensures Built(fs - {created[|created| - 1].path}, base, output, directory, created[..|created| - 1])
  {
    var n := |created| - 1;
    var fs', created' := fs - {created[n].path}, created[..n];
    assert created[n].path !in base;
    forall p ensures p in fs' <==> p in base || p == output || Names(created', p) {
      if Names(created, p) && p != created[n].path {
        var i :| 0 <= i < |created| && created[i].path == p;
        assert created'[i].path == p;
      }
    }
  }

  lemma BuiltVacant(fs: Fs, base: Fs, output: Path, directory: Node, created: seq<Entry>, i: nat)
    requires Built(fs, base, output, directory, created)
    ensures i < |created| ==> Vacant(fs, created[i].path)
    ensures created == [] ==> Vacant(fs, output) && fs - {output} == base
  {
  }

  /** At most the content of the given object has changed; another object at its path is left alone. */
  predicate Rewrites(f: Fs, g: Fs, path: Path, node: Node) {
    && g.Keys == f.Keys && (forall p | p in f && p != path :: g[p] == f[p])
    && (path in f ==> SameObject(g[path], f[path]) && (f[path].identity != node.identity || f[path].kind != node.kind ==> g[path] == f[path]))
  }

  /**
    A filesystem shared with others. Before each of our calls others may do anything (`meddle`);
    writing calls fail as `fault` says, looking and removing calls as `stuck` says.
  */
  class Disk {
    const meddle: (nat, Fs) -> Fs
    const fault: nat -> bool
    const stuck: nat -> bool
    const partial: nat -> nat
    const allot: (nat, Fs) -> nat
    var fs: Fs
    var clock: nat
    var made: seq<Entry>      // every object these calls created
    var removed: seq<Entry>   // every object these calls removed

    constructor (meddle: (nat, Fs) -> Fs, fault: nat -> bool, stuck: nat -> bool, partial: nat -> nat, allot: (nat, Fs) -> nat, fs: Fs)
      ensures this.meddle == meddle && this.fault == fault && this.stuck == stuck && this.partial == partial && this.allot == allot
      ensures this.fs == fs && clock == 0 && made == [] && removed == []
    {
      this.meddle, this.fault, this.stuck, this.partial, this.allot := meddle, fault, stuck, partial, allot;
      this.fs, clock, made, removed := fs, 0, [], [];
    }

    /** Nobody else is at work, and looking and removing succeed. */
    ghost predicate Quiet() {
      (forall t, f :: meddle(t, f) == f) && (forall t :: !stuck(t))
    }

    /** And no writing call fails either. */
    ghost predicate Calm() {
      Quiet() && forall t :: !fault(t)
    }

    method Tick()
      modifies this`fs, this`clock
      ensures fs == meddle(old(clock), old(fs)) && clock == old(clock) + 1
    {
      fs := meddle(clock, fs);
      clock := clock + 1;
    }

    method Lookup(path: Path) returns (r: Look)
      modifies this`fs, this`clock
      ensures Quiet() ==> fs == old(fs) && r == if path in fs then Present(fs[path]) else Missing
      ensures r.Present? ==> path in fs && r.node == fs[path]
    {
      Tick();
      if stuck(clock) { return Unavailable; }
      r := if path in fs then Present(fs[path]) else Missing;
    }

    /** Creates a new object; an existing one is never opened. */
    method Make(path: Path, kind: Kind) returns (r: Option<Node>)
      modifies this`fs, this`clock, this`made
      ensures r.Some? ==> r.value.kind == kind && r.value.content == [] && made == old(made) + [Entry(path, r.value)]
      ensures r.Some? ==> path != [] && path in fs && fs[path] == r.value
      ensures r.None? ==> made == old(made)
      ensures Quiet() && r.None? ==> fs == old(fs)
      ensures Quiet() && r.Some? ==> path !in old(fs) && IsDirectory(old(fs), path[..|path| - 1]) && fs == old(fs)[path := r.value]
      ensures Quiet() && path in old(fs) ==> r.None?
      ensures Calm() && path != [] && path !in old(fs) && IsDirectory(old(fs), path[..|path| - 1]) ==> r.Some?
    {
      Tick();
      if fault(clock) || path == [] || path in fs || !IsDirectory(fs, path[..|path| - 1]) { return None; }
      var node := Node(allot(clock, fs), kind, []);
      fs := fs[path := node];
      made := made + [Entry(path, node)];
      return Some(node);
    }

    /** Writes through an open stream: to the object that was opened, whatever its path names by now. */
    method Write(path: Path, node: Node, data: Bytes) returns (ok: bool)
      modifies this`fs, this`clock
      ensures Rewrites(meddle(old(clock), old(fs)), fs, path, node)
      ensures ok && path in fs && SameObject(fs[path], node) ==> fs[path].content == data
      ensures Calm() ==> ok
    {
      Tick();
      var n := if fault(clock) && partial(clock) < |data| then partial(clock) else |data|;
      if path in fs && SameObject(fs[path], node) {
        fs := fs[path := fs[path].(content := data[..n])];
      }
      ok := n == |data|;
    }

    /** Flushing and closing change nothing that can be seen, and may fail. */
    method Settle() returns (ok: bool)
      modifies this`fs, this`clock
      ensures fs == meddle(old(clock), old(fs))
      ensures Calm() ==> ok
    {
      Tick();
      ok := !fault(clock);
    }

    /** Removes a file or an empty directory if it is still the recorded object. */
    method RemoveRecorded(e: Entry) returns (r: Removal)
      modifies this`fs, this`clock, this`removed
      ensures Took(old(removed), removed, e) && (removed != old(removed) <==> r == Removed)
      ensures r == Removed ==> e.path !in fs && forall p | p in fs :: !(e.path < p)
      ensures Quiet() && e.path in old(fs) && SameObject(old(fs)[e.path], e.node) && Vacant(old(fs), e.path) ==> r == Removed && fs == old(fs) - {e.path}
      ensures Quiet() && r != Removed ==> fs == old(fs)
    {
      Tick();
      if stuck(clock) { return Stuck; }
      if e.path !in fs { return Gone; }
      if !SameObject(fs[e.path], e.node) { return Replaced; }
      if !Vacant(fs, e.path) { return Stuck; }
      removed := removed + [Entry(e.path, fs[e.path])];
      fs := fs - {e.path};
      return Removed;
    }
  }

  // ---- The writer ----

  predicate Leaf(name: string) {
    name != "" && name != "." && name != ".." && forall i | 0 <= i < |name| :: name[i] !in {'/', '\\', ':', '\0'}
  }

  /** Nothing changed but that missing parents of the output may now exist as directories. */
  ghost predicate ParentsOnly(f: Fs, g: Fs, output: Path) {
    && (forall p | p in f :: p in g && g[p] == f[p])
    && (forall p | p in g && p !in f :: p < output && g[p].kind == Directory)
  }

  lemma {:induction false} AncestorExists(fs: Fs, p: Path, q: Path)
    requires WellFormed(fs) && p in fs && q <= p && q != []
    ensures q in fs
    decreases |p|
  {
    if q != p {
      var parent := p[..|p| - 1];
      assert q <= parent && IsDirectory(fs, parent);
      AncestorExists(fs, parent, q);
    }
  }

  lemma NothingInside(f: Fs, g: Fs, output: Path)
    requires WellFormed(f) && output !in f && output != [] && ParentsOnly(f, g, output)
    ensures output !in g && Vacant(g, output)
  {
    forall p | p in g ensures !(output < p) {
      if output < p && p in f { AncestorExists(f, p, output); }
    }
  }

  /** Whatever exists on the way to the output is a directory. */
  predicate Usable(fs: Fs, output: Path) {
    forall n | 1 <= n < |output| && output[..n] in fs :: fs[output[..n]].kind == Directory
  }

  /** Creates the output directory and any missing parents; an output that exists is refused. */
  method MakeOutput(disk: Disk, output: Path) returns (node: Option<Node>)
    requires output != []
    modifies disk
    ensures disk.removed == old(disk.removed)
    ensures disk.Quiet() && node.None? ==> ParentsOnly(old(disk.fs), disk.fs, output)
    ensures disk.Quiet() && node.Some? ==> output !in old(disk.fs) && output in disk.fs && disk.fs[output] == node.value && ParentsOnly(old(disk.fs), disk.fs - {output}, output)
    ensures node.Some? ==> node.value.kind == Directory
    ensures disk.Calm() && output !in old(disk.fs) && Usable(old(disk.fs), output) ==> node.Some?
    ensures old(disk.made) <= disk.made && (node.Some? ==> Entry(output, node.value) in disk.made[|old(disk.made)|..])
  {
    for n := 1 to |output|
      invariant disk.removed == old(disk.removed) && old(disk.made) <= disk.made
      invariant disk.Quiet() ==> ParentsOnly(old(disk.fs), disk.fs, output) && (output in disk.fs <==> output in old(disk.fs))
      invariant disk.Quiet() && Usable(old(disk.fs), output) ==> Usable(disk.fs, output) && IsDirectory(disk.fs, output[..n - 1])
    {
      assert output[..n][..n - 1] == output[..n - 1];
      var there := disk.Lookup(output[..n]);
      if !there.Present? {
        var parent := disk.Make(output[..n], Directory);
        if parent.None? { return None; }
      }
    }
    ghost var sofar := disk.made;
    node := disk.Make(output, Directory);
    if node.Some? { assert disk.made[|sofar|] == Entry(output, node.value); }
  }

  /** One file: the directory is looked at again, then the file is created, recorded, written and closed. */
  method WriteFile(disk: Disk, output: Path, directory: Node, name: string, data: Bytes, created: seq<Entry>, ghost base: Fs)
    returns (ok: bool, recorded: seq<Entry>)
    requires disk.Quiet() ==> Built(disk.fs, base, output, directory, created)
    modifies disk
    ensures created <= recorded && |recorded| <= |created| + 1 && disk.removed == old(disk.removed) && old(disk.made) <= disk.made
    ensures |recorded| > |created| ==> recorded[|created|] in disk.made[|old(disk.made)|..]
    ensures disk.Quiet() ==> Built(disk.fs, base, output, directory, recorded)
    ensures disk.Quiet() ==> forall p | p in old(disk.fs) :: p in disk.fs && disk.fs[p] == old(disk.fs)[p]
    ensures ok ==> |recorded| == |created| + 1 && recorded[|created|].path == output + [name]
    ensures disk.Calm() && directory.kind == Directory && output + [name] !in old(disk.fs) ==> ok
    ensures ok && disk.Quiet() ==> recorded[|created|].path in disk.fs && disk.fs[recorded[|created|].path].content == data
  {
    recorded := created;
    var path := output + [name];
    var node := OpenNew(disk, output, directory, path);
    if node.None? { return false, recorded; }
    recorded := created + [Entry(path, node.value)];
    ghost var bare := disk.fs;
    if disk.Quiet() { BuiltAdd(old(disk.fs), base, output, directory, created, Entry(path, node.value)); }
    ok := FillFile(disk, path, node.value, data);
    if disk.Quiet() { BuiltRewritten(bare, disk.fs, base, output, directory, recorded, path, node.value); }
  }

  /** Creates a file in the output, if that is still the recorded directory. */
  method OpenNew(disk: Disk, output: Path, directory: Node, path: Path) returns (node: Option<Node>)
    requires path != [] && path[..|path| - 1] == output
    modifies disk`fs, disk`clock, disk`made
    ensures disk.made == if node.Some? then old(disk.made) + [Entry(path, node.value)] else old(disk.made)
    ensures disk.Quiet() ==> disk.fs == if node.Some? then old(disk.fs)[path := node.value] else old(disk.fs)
    ensures disk.Quiet() && node.Some? ==> path !in old(disk.fs)
    ensures disk.Calm() && path !in old(disk.fs) && directory.kind == Directory && output in old(disk.fs) && SameObject(old(disk.fs)[output], directory) ==> node.Some?
  {
    var there := disk.Lookup(output);
    if !there.Present? || !SameObject(there.node, directory) { return None; }
    node := disk.Make(path, File);
  }

  /** Writes, flushes and closes the file just created. */
  method FillFile(disk: Disk, path: Path, node: Node, data: Bytes) returns (ok: bool)
    modifies disk`fs, disk`clock
    ensures disk.Quiet() ==> Rewrites(old(disk.fs), disk.fs, path, node)
    ensures disk.Quiet() && ok && path in disk.fs && SameObject(disk.fs[path], node) ==> disk.fs[path].content == data
    ensures disk.Calm() ==> ok
  {
    ok := disk.Write(path, node, data);
    if !ok { return; }
    ok := disk.Settle();
    if !ok { return; }
    ok := disk.Settle();
  }

  lemma BuiltRewritten(f: Fs, g: Fs, base: Fs, output: Path, directory: Node, created: seq<Entry>, path: Path, node: Node)
    requires Built(f, base, output, directory, created) && path in f && path !in base && Rewrites(f, g, path, node)
    ensures Built(g, base, output, directory, created)
  {
  }

  /** Takes back the last of the recorded files, unless the directory is no longer the recorded one. */
  method TakeBack(disk: Disk, output: Path, directory: Node, created: seq<Entry>, ghost base: Fs) returns (go: bool, problem: bool)
    requires created != [] && (disk.Quiet() ==> Built(disk.fs, base, output, directory, created))
    modifies disk`fs, disk`clock, disk`removed
    ensures Took(old(disk.removed), disk.removed, created[|created| - 1])
    ensures !go ==> disk.removed == old(disk.removed)
    ensures disk.Quiet() ==> go && !problem && Built(disk.fs, base, output, directory, created[..|created| - 1])
  {
    var there := disk.Lookup(output);
    if !there.Present? || !SameObject(there.node, directory) { return false, true; }
    if disk.Quiet() {
      BuiltVacant(disk.fs, base, output, directory, created, |created| - 1);
      BuiltDrop(disk.fs, base, output, directory, created);
    }
    var r := disk.RemoveRecorded(created[|created| - 1]);
    return true, r == Replaced || r == Stuck;
  }

  /** Takes back recorded files, the last one first. */
  method TakeBackAll(disk: Disk, output: Path, directory: Node, created: seq<Entry>, ghost base: Fs) returns (problems: nat)
    requires disk.Quiet() ==> Built(disk.fs, base, output, directory, created)
    modifies disk`fs, disk`clock, disk`removed
    ensures OnlyRecorded(old(disk.removed), disk.removed, created)
    ensures disk.Quiet() ==> problems == 0 && Built(disk.fs, base, output, directory, [])
  {
    problems := 0;
    var rest := created;
    while rest != []
      invariant rest <= created && OnlyRecorded(old(disk.removed), disk.removed, created)
      invariant disk.Quiet() ==> problems == 0 && Built(disk.fs, base, output, directory, rest)
      decreases |rest|
    {
      ghost var taken := disk.removed;
      var last := rest[|rest| - 1];
      var go, problem := TakeBack(disk, output, directory, rest, base);
      if problem { problems := problems + 1; }
      if !go { return; }
      rest := rest[..|rest| - 1];
      assert last == created[|rest|];
      TookRecorded(old(disk.removed), taken, disk.removed, last, created);
    }
  }

  /** Undoes an attempt: the files, then the directory if nothing else is left in it. */
  method CleanUp(disk: Disk, output: Path, directory: Option<Node>, created: seq<Entry>, ghost base: Fs) returns (problems: nat)
    requires disk.Quiet() && directory.Some? ==> Built(disk.fs, base, output, directory.value, created)
    modifies disk`fs, disk`clock, disk`removed
    ensures directory.Some? ==> OnlyRecorded(old(disk.removed), disk.removed, created + [Entry(output, directory.value)])
    ensures directory.None? ==> disk.removed == old(disk.removed) && problems > 0
    ensures problems == 0 ==> |disk.removed| > |old(disk.removed)| && disk.removed[|disk.removed| - 1].path == output && output !in disk.fs
    ensures disk.Quiet() && directory.Some? ==> problems == 0 && disk.fs == base
  {
    if directory.None? { return 1; }
    problems := TakeBackAll(disk, output, directory.value, created, base);
    ghost var taken := disk.removed;
    if disk.Quiet() { BuiltVacant(disk.fs, base, output, directory.value, [], 0); }
    var e := Entry(output, directory.value);
    var r := disk.RemoveRecorded(e);
    RecordGrows(old(disk.removed), taken, created, e);
    TookRecorded(old(disk.removed), taken, disk.removed, e, created + [e]);
    if r != Removed { problems := problems + 1; }
  }

  lemma RecordGrows(before: seq<Entry>, after: seq<Entry>, record: seq<Entry>, e: Entry)
    requires OnlyRecorded(before, after, record)
    ensures OnlyRecorded(before, after, record + [e])
  {
    forall i | |before| <= i < |after| ensures Recorded(after[i], record + [e]) {
      assert Recorded(after[i], record);
      var j :| 0 <= j < |record| && record[j].path == after[i].path && record[j].node.identity == after[i].node.identity && record[j].node.kind == after[i].node.kind;
      assert (record + [e])[j] == record[j];
    }
  }

  datatype Document = Document(name: string, text: string)

  predicate Writable(docs: seq<Document>, encode: string -> Option<Bytes>) {
    docs != [] && forall i | 0 <= i < |docs| :: Leaf(docs[i].name) && encode(docs[i].text).Some?
  }

  /** Prepares every byte before anything is created. */
  method EncodeAll(docs: seq<Document>, encode: string -> Option<Bytes>) returns (encoded: Option<seq<Bytes>>)
    ensures encoded.Some? <==> Writable(docs, encode)
    ensures encoded.Some? ==> |encoded.value| == |docs| && forall i | 0 <= i < |docs| :: encode(docs[i].text) == Some(encoded.value[i])
  {
    var all: seq<Bytes> := [];
    for n := 0 to |docs|
      invariant |all| == n && forall i | 0 <= i < n :: Leaf(docs[i].name) && encode(docs[i].text) == Some(all[i])
    {
      if !Leaf(docs[n].name) { return None; }
      var data := encode(docs[n].text);
      if data.None? { return None; }
      all := all + [data.value];
    }
    return if docs == [] then None else Some(all);
  }

  predicate DistinctNames(docs: seq<Document>) {
    forall i, j | 0 <= i < j < |docs| :: docs[i].name != docs[j].name
  }

  /** The next file of a set with distinct names is not there yet. */
  lemma NextIsAbsent(fs: Fs, base: Fs, output: Path, directory: Node, docs: seq<Document>, data: seq<Bytes>, created: seq<Entry>)
    requires Built(fs, base, output, directory, created) && Holds(fs, output, docs, data, created) && |created| < |docs| && DistinctNames(docs)
    ensures output + [docs[|created|].name] !in fs
  {
    var path := output + [docs[|created|].name];
    assert output < path;
    forall i | 0 <= i < |created| ensures created[i].path != path {
      assert created[i].path[|output|] == docs[i].name && path[|output|] == docs[|created|].name;
    }
  }

  /** The files written so far hold their documents. */
  ghost predicate Holds(fs: Fs, output: Path, docs: seq<Document>, data: seq<Bytes>, created: seq<Entry>) {
    |created| <= |docs| == |data|
    && forall i | 0 <= i < |created| :: created[i].path == output + [docs[i].name] && created[i].path in fs && fs[created[i].path].content == data[i]
  }

  /** Every recorded file is one that this attempt created. */
  predicate OwnFiles(before: seq<Entry>, made: seq<Entry>, created: seq<Entry>) {
    before <= made && forall i | 0 <= i < |created| :: created[i] in made[|before|..]
  }

  lemma OwnMore(before: seq<Entry>, middle: seq<Entry>, after: seq<Entry>, created: seq<Entry>, recorded: seq<Entry>)
    requires OwnFiles(before, middle, created) && middle <= after && created <= recorded && |recorded| <= |created| + 1
    requires |recorded| > |created| ==> recorded[|created|] in after[|middle|..]
    ensures OwnFiles(before, after, recorded)
  {
    forall i | 0 <= i < |recorded| ensures recorded[i] in after[|before|..] {
      if i < |created| {
        assert recorded[i] == created[i];
        StaysInTail(middle, after, |before|, created[i]);
      } else {
        InLongerTail(after, |before|, |middle|, recorded[i]);
      }
    }
  }

  lemma StaysInTail<T>(a: seq<T>, b: seq<T>, n: nat, x: T)
    requires n <= |a| && a <= b && x in a[n..]
    ensures x in b[n..]
  {
    var k :| 0 <= k < |a[n..]| && a[n..][k] == x;
    assert b[n..][k] == x;
  }

  lemma InLongerTail<T>(a: seq<T>, n: nat, m: nat, x: T)
    requires n <= m <= |a| && x in a[m..]
    ensures x in a[n..]
  {
    var k :| 0 <= k < |a[m..]| && a[m..][k] == x;
    assert a[n..][k + m - n] == x;
  }

  lemma HoldsMore(f: Fs, g: Fs, output: Path, docs: seq<Document>, data: seq<Bytes>, created: seq<Entry>, recorded: seq<Entry>)
    requires Holds(f, output, docs, data, created) && |created| < |docs| && created <= recorded && |recorded| == |created| + 1
    requires forall p | p in f :: p in g && g[p] == f[p]
    requires recorded[|created|].path == output + [docs[|created|].name] && recorded[|created|].path in g && g[recorded[|created|].path].content == data[|created|]
    ensures Holds(g, output, docs, data, recorded)
  {
    forall i | 0 <= i < |recorded| ensures recorded[i].path == output + [docs[i].name] && recorded[i].path in g && g[recorded[i].path].content == data[i] {
      if i < |created| { assert recorded[i] == created[i]; }
    }
  }

  /** The files one after another, until one fails. */
  method WriteFiles(disk: Disk, output: Path, directory: Node, docs: seq<Document>, data: seq<Bytes>, ghost base: Fs)
    returns (ok: bool, created: seq<Entry>)
    requires |docs| == |data| && (disk.Quiet() ==> Built(disk.fs, base, output, directory, []))
    modifies disk
    ensures disk.removed == old(disk.removed) && OwnFiles(old(disk.made), disk.made, created)
    ensures disk.Quiet() ==> Built(disk.fs, base, output, directory, created)
    ensures ok ==> |created| == |docs| && (disk.Quiet() ==> Holds(disk.fs, output, docs, data, created))
    ensures disk.Calm() && directory.kind == Directory && DistinctNames(docs) ==> ok
  {
    created := [];
    for n := 0 to |docs|
      invariant |created| == n && disk.removed == old(disk.removed) && OwnFiles(old(disk.made), disk.made, created)
      invariant disk.Quiet() ==> Built(disk.fs, base, output, directory, created) && Holds(disk.fs, output, docs, data, created)
    {
      ghost var f, made, before := disk.fs, disk.made, created;
      if disk.Quiet() && DistinctNames(docs) { NextIsAbsent(f, base, output, directory, docs, data, created); }
      ok, created := WriteFile(disk, output, directory, docs[n].name, data[n], created, base);
      OwnMore(old(disk.made), made, disk.made, before, created);
      if !ok { return; }
      if disk.Quiet() { HoldsMore(f, disk.fs, output, docs, data, before, created); }
    }
    ok := true;
  }

  /** Nothing of a failed attempt is left but new parents of the output. */
  ghost predicate RolledBack(before: Fs, after: Fs, output: Path) {
    ParentsOnly(before, after, output) && (output !in before ==> output !in after && Vacant(after, output))
  }

  /** Exactly the documents were added, in a new directory, and perhaps new parents. */
  ghost predicate Written(before: Fs, after: Fs, output: Path, directory: Node, docs: seq<Document>, data: seq<Bytes>, created: seq<Entry>) {
    && output !in before && |created| == |docs| == |data| && Holds(after, output, docs, data, created)
    && exists base :: ParentsOnly(before, base, output) && Built(after, base, output, directory, created)
  }

  /** What follows the creation of the output directory: recording it, the files, and the undoing on failure. */
  method FillOutput(disk: Disk, output: Path, docs: seq<Document>, data: seq<Bytes>, ghost base: Fs)
    returns (ok: bool, directory: Option<Node>, created: seq<Entry>)
    requires |docs| == |data|
    requires disk.Quiet() ==> output in disk.fs && base == disk.fs - {output} && Vacant(base, output) && disk.fs[output].kind == Directory
    modifies disk
    ensures OwnFiles(old(disk.made), disk.made, created)
    ensures ok || directory.None? ==> disk.removed == old(disk.removed)
    ensures ok ==> directory.Some? && |created| == |docs|
    ensures directory.Some? ==> OnlyRecorded(old(disk.removed), disk.removed, created + [Entry(output, directory.value)])
    ensures disk.Calm() && DistinctNames(docs) ==> ok
    ensures disk.Quiet() && !ok ==> disk.fs == base
    ensures disk.Quiet() && ok ==> Built(disk.fs, base, output, directory.value, created) && Holds(disk.fs, output, docs, data, created)
  {
    ok, directory, created := false, None, [];
    var there := disk.Lookup(output);
    if there.Present? {
      directory := Some(there.node);
      if disk.Quiet() { BuiltStart(disk.fs, base, output, there.node); }
      if there.node.kind == Directory {
        ok, created := WriteFiles(disk, output, there.node, docs, data, base);
      }
    }
    if !ok {
      var problems := CleanUp(disk, output, directory, created, base);
    }
  }

  lemma OwnSince(before: seq<Entry>, middle: seq<Entry>, after: seq<Entry>, created: seq<Entry>)
    requires before <= middle && OwnFiles(middle, after, created)
    ensures OwnFiles(before, after, created)
  {
    forall i | 0 <= i < |created| ensures created[i] in after[|before|..] {
      InLongerTail(after, |before|, |middle|, created[i]);
    }
  }

  /**
    The whole attempt. Whatever others do meanwhile, it removes only objects it recorded, and every file
    it recorded is one it created. When nobody else is at work, a failed attempt leaves no output and
    nothing changed but new parents, and a successful one leaves exactly the documents.
  */
  method WriteDocuments(disk: Disk, output: Path, docs: seq<Document>, encode: string -> Option<Bytes>)
    returns (ok: bool, directory: Option<Node>, created: seq<Entry>, data: seq<Bytes>)
    requires output != [] && WellFormed(disk.fs)
    modifies disk
    ensures !Writable(docs, encode) ==> !ok && disk.fs == old(disk.fs) && disk.clock == old(disk.clock)
    ensures OwnFiles(old(disk.made), disk.made, created)
    ensures ok || directory.None? ==> disk.removed == old(disk.removed)
    ensures directory.Some? ==> OnlyRecorded(old(disk.removed), disk.removed, created + [Entry(output, directory.value)])
    ensures disk.Quiet() && !ok ==> RolledBack(old(disk.fs), disk.fs, output)
    ensures disk.Calm() && Writable(docs, encode) && DistinctNames(docs) && output !in old(disk.fs) && Usable(old(disk.fs), output) ==> ok
    ensures ok ==> directory.Some? && |data| == |docs| && forall i | 0 <= i < |docs| :: encode(docs[i].text) == Some(data[i])
    ensures disk.Quiet() && ok ==> Written(old(disk.fs), disk.fs, output, directory.value, docs, data, created)
  {
    ok, directory, created, data := false, None, [], [];
    var encoded := EncodeAll(docs, encode);
    if encoded.None? {
      if output !in disk.fs { NothingInside(disk.fs, disk.fs, output); }
      return;
    }
    data := encoded.value;
    var made := MakeOutput(disk, output);
    if made.None? {
      if disk.Quiet() && output !in old(disk.fs) { NothingInside(old(disk.fs), disk.fs, output); }
      return;
    }
    ghost var base, sofar := disk.fs - {output}, disk.made;
    if disk.Quiet() { NothingInside(old(disk.fs), base, output); }
    ok, directory, created := FillOutput(disk, output, docs, data, base);
    OwnSince(old(disk.made), sofar, disk.made, created);
  }

  lemma BuiltStart(fs: Fs, base: Fs, output: Path, directory: Node)
    requires base == fs - {output} && output in fs && fs[output] == directory && Vacant(base, output)
    ensures Built(fs, base, output, directory, [])
  {
  }

  // ---- What a leaf name is ----

  predicate Separator(ch: char) { ch == '/' || ch == '\\' }

  /** The parts of a relative path text, cut at either separator. */
  function Parts(text: string): (ps: seq<string>)
    ensures |ps| > 0
  {
    if text == "" then [""]
    else
      var rest := Parts(text[1..]);
      if Separator(text[0]) then [""] + rest else [[text[0]] + rest[0]] + rest[1..]
  }

  /** Where following one part leads: empty and dot stay, two dots go up. */
  function Enter(at: Path, part: string): Path {
    if part == "" || part == "." then at
    else if part == ".." then (if at == [] then [] else at[..|at| - 1])
    else at + [part]
  }

  function Walk(at: Path, parts: seq<string>): Path
    decreases |parts|
  {
    if parts == [] then at else Walk(Enter(at, parts[0]), parts[1..])
  }

  predicate Plain(s: string) {
    forall i | 0 <= i < |s| :: !Separator(s[i])
  }

  lemma {:induction false} PlainIsOnePart(s: string)
    ensures Plain(s) <==> Parts(s) == [s]
    decreases |s|
  {
    if s != "" {
      PlainIsOnePart(s[1..]);
      if Separator(s[0]) {
        assert Parts(s)[0] == "";
      } else {
        assert [s[0]] + s[1..] == s;
        if Parts(s) == [s] {
          assert Parts(s)[0][1..] == Parts(s[1..])[0];
        }
      }
    }
  }

  lemma {:induction false} PartsArePlain(s: string)
    ensures forall i | 0 <= i < |Parts(s)| :: Plain(Parts(s)[i])
    decreases |s|
  {
    if s != "" { PartsArePlain(s[1..]); }
  }

  /** Whatever a walk has added to where it began is free of separators. */
  ghost predicate Within(start: Path, at: Path) {
    forall i | 0 <= i < |at| :: (i < |start| && at[i] == start[i]) || Plain(at[i])
  }

  lemma {:induction false} WalkAddsPlain(start: Path, at: Path, parts: seq<string>)
    requires Within(start, at) && forall i | 0 <= i < |parts| :: Plain(parts[i])
    ensures Within(start, Walk(at, parts))
    decreases |parts|
  {
    if parts != [] {
      assert Within(start, Enter(at, parts[0]));
      WalkAddsPlain(start, Enter(at, parts[0]), parts[1..]);
    }
  }

  lemma EntryIsPlain(output: Path, parts: seq<string>, name: string)
    requires forall i | 0 <= i < |parts| :: Plain(parts[i])
    ensures Walk(output, parts) == output + [name] ==> Plain(name)
  {
    WalkAddsPlain(output, output, parts);
    assert (output + [name])[|output|] == name;
  }

  /** Exactly the leaf names, read as a path below any directory, name that entry of that very directory, on no other drive or stream. */
  lemma LeafStaysInside(output: Path, name: string)
    ensures Leaf(name) <==> Walk(output, Parts(name)) == output + [name] && ':' !in name && '\0' !in name
  {
    PlainIsOnePart(name);
    if Plain(name) {
      assert Walk(output, [name]) == Walk(Enter(output, name), []);
    }
    PartsArePlain(name);
    EntryIsPlain(output, Parts(name), name);
  }
}
