/**
 The `InMemoryFS` class: its dictionaries, and its operations in place.  Each method
 is proved equal to its function in `InMemoryFs`, where `ApplyKeepsValid` and
 `StepSound` show what keeps `Valid`.
 */
module InMemoryFsStore {
  import opened Wrappers
  import opened Bytes
  import M = InMemoryFs

  type Path = M.Path

  class InMemoryFS {
    var tree: map<Path, M.Node>
    var revision: map<Path, nat>
    var generation: nat
    ghost var issued: map<nat, M.Node>

    ghost function State(): M.Fs
      reads this
    {
      M.Fs(tree, revision, generation, issued)
    }

    ghost predicate Valid()
      reads this
    {
      M.Valid(State())
    }

    constructor ()
      ensures State() == M.INIT && Valid()
    {
      tree := map[[] := M.Directory];
      generation := 1;
      revision := map[[] := 1];
      issued := map[1 := M.Directory];
      new;
      M.InitValid();
    }

    method NextRevision() returns (r: nat)
      modifies this`generation
      ensures generation == r == old(generation) + 1
    {
      generation := generation + 1;
      r := generation;
    }

    method Touch(path: Path)
      requires path in tree
      modifies this`generation, this`revision, this`issued
      ensures generation == old(generation) + 1
      ensures revision == old(revision)[path := generation] && issued == old(issued)[generation := tree[path]]
    {
      var r := NextRevision();
      revision := revision[path := r];
      issued := issued[r := tree[path]];
    }

    method Store(path: Path, node: M.Node)
      modifies this
      ensures State() == M.Put(old(State()), path, node)
    {
      tree := tree[path := node];
      Touch(path);
    }

    method Mkdir(path: Path) returns (r: Result<(), M.Error>)
      requires Valid()
      modifies this
      ensures M.Outcome(State(), r) == M.Mkdir(old(State()), path)
    {
      ghost var s := State();
      if path == [] { return Ok(()); }
      for i := 1 to |path|
        invariant State() == M.EnsureDirs(s, path, i)
        invariant forall k :: 0 < k < i ==> !M.IsFile(s, path[..k])
      {
        var ancestor := path[..i];
        MakeDirsFrame(s, path, i);
        if ancestor !in tree {
          Store(ancestor, M.Directory);
        } else if tree[ancestor].File? {
          M.EnsureDirsIdle(s, path, i);
          assert M.IsFile(s, path[..i]);
          return Err(M.Conflict);
        }
        assert State() == M.EnsureDirs(s, path, i + 1);
      }
      MakeDirsFrame(s, path, |path|);
      assert path[..|path|] == path;
      if path in tree && tree[path].File? {
        M.EnsureDirsIdle(s, path, |path|);
        return Err(M.Conflict);
      }
      Store(path, M.Directory);
      return Ok(());
    }

    method ClaimDirectory(path: Path) returns (r: Result<nat, M.Error>)
      requires Valid()
      modifies this
      ensures M.Outcome(State(), r) == M.ClaimDirectory(old(State()), path)
    {
      if path == [] || path in tree { return Err(M.Conflict); }
      var parent := M.Parent(path);
      if parent !in tree { return Err(M.NotFound); }
      if tree[parent].File? { return Err(M.Conflict); }
      Store(path, M.Directory);
      return Ok(revision[path]);
    }

    method Remove(paths: set<Path>)
      modifies this`tree, this`revision
      ensures tree == old(tree) - paths && revision == old(revision) - paths
    {
      var todo := paths;
      while todo != {}
        invariant todo <= paths
        invariant tree == old(tree) - (paths - todo) && revision == old(revision) - (paths - todo)
        decreases todo
      {
        var p :| p in todo;
        tree := tree - {p};
        revision := revision - {p};
        todo := todo - {p};
      }
    }

    method Delete(path: Path, expected: Option<nat>) returns (r: Result<(), M.Error>)
      requires Valid()
      modifies this
      ensures M.Outcome(State(), r) == M.Delete(old(State()), path, expected)
    {
      ghost var s := State();
      if path !in tree { return Err(M.NotFound); }
      if path == [] { return Err(M.Conflict); }
      if expected.Some? && revision[path] != expected.value { return Err(M.Conflict); }
      if tree[path].Directory? {
        var gone := set p | p in tree && path <= p;
        CutRemoves(s, path, gone);
        Remove(gone);
      } else {
        FileIsAlone(s, path);
        CutRemoves(s, path, {path});
        Remove({path});
      }
      return Ok(());
    }

    method DeleteEmptyDirectory(path: Path, expected: Option<nat>) returns (r: Result<(), M.Error>)
      requires Valid()
      modifies this
      ensures M.Outcome(State(), r) == M.DeleteEmpty(old(State()), path, expected)
    {
      ghost var s := State();
      if path !in tree { return Err(M.NotFound); }
      if path == [] || tree[path].File? { return Err(M.Conflict); }
      if expected.Some? && revision[path] != expected.value { return Err(M.Conflict); }
      if exists candidate :: candidate in tree && candidate != path && path <= candidate {
        assert M.HasChild(s, path);
        return Err(M.Conflict);
      }
      Remove({path});
      assert tree == M.Cut(s, path).tree && revision == M.Cut(s, path).rev;
      return Ok(());
    }

    method MoveEntry(src: Path, dst: Path, p: Path, ghost s: M.Fs, ghost done: set<Path>)
      requires M.Clear(s, src, dst) && p in s.tree && src <= p && p !in done
      requires Moving(s, src, dst, done, tree, revision)
      modifies this`tree, this`revision
      ensures Moving(s, src, dst, done + {p}, tree, revision)
      ensures Conserved(old(tree), old(revision), tree, revision)
    {
      var newPath := dst + p[|src|..];
      MoveOne(s, src, dst, done, tree, revision, p);
      EntryConserved(tree, revision, p, newPath);
      tree := (tree - {p})[newPath := tree[p]];
      revision := (revision - {p})[newPath := revision[p]];
    }

    /**
     The loop of `_publish_no_replace`: it pops each affected path and inserts it at
     its new place.  It never lands on an entry, so nothing is lost on the way.
     */
    method MoveAffected(src: Path, dst: Path)
      requires M.Clear(State(), src, dst)
      modifies this`tree, this`revision
      ensures State() == M.Moved(old(State()), src, dst)
      ensures Conserved(old(tree), old(revision), tree, revision)
    {
      ghost var s := State();
      var affected := set p | p in tree && src <= p;
      MovingStarts(s, src, dst);
      ghost var done := MoveEntries(src, dst, affected, s);
      MovedAll(s, src, dst, done, tree, revision);
    }

    /** The loop of the move, over the affected paths in any order. */
    method MoveEntries(src: Path, dst: Path, affected: set<Path>, ghost s: M.Fs) returns (ghost done: set<Path>)
      requires M.Clear(s, src, dst) && forall p :: p in affected <==> p in s.tree && src <= p
      requires Moving(s, src, dst, {}, tree, revision) && Conserved(s.tree, s.rev, tree, revision)
      modifies this`tree, this`revision
      ensures Moving(s, src, dst, done, tree, revision) && forall p :: p in done <==> p in s.tree && src <= p
      ensures Conserved(s.tree, s.rev, tree, revision)
    {
      var todo := affected;
      done := {};
      while todo != {}
        invariant done !! todo && forall p :: p in done + todo <==> p in s.tree && src <= p
        invariant Moving(s, src, dst, done, tree, revision)
        invariant Conserved(s.tree, s.rev, tree, revision)
        decreases todo
      {
        var p :| p in todo;
        MoveEntry(src, dst, p, s, done);
        todo, done := todo - {p}, done + {p};
      }
    }

    method PublishNoReplace(src: Path, dst: Path) returns (r: Result<(), M.Error>)
      requires Valid()
      modifies this`tree, this`revision
      ensures M.Outcome(State(), r) == M.PublishNoReplace(old(State()), src, dst)
      ensures Conserved(old(tree), old(revision), tree, revision)
      ensures r.Ok? ==> src in old(revision) && dst in revision && revision[dst] == old(revision[src])
    {
      ghost var s := State();
      if src !in tree { return Err(M.NotFound); }
      if dst in tree { return Err(M.Conflict); }
      if src <= dst { return Err(M.Conflict); }
      var parent := M.Parent(dst);
      if parent != [] && parent !in tree { return Err(M.NotFound); }
      if parent != [] && tree[parent].File? { return Err(M.Conflict); }
      M.MoveIsFresh(s, src, dst);
      M.MovedAt(s, src, dst, []);
      assert src + [] == src && dst + [] == dst;
      MoveAffected(src, dst);
      return Ok(());
    }

    method AtomicPublishNoReplace(staged: Path, destination: Path, expected: nat) returns (r: Result<nat, M.Error>)
      requires Valid()
      modifies this
      ensures State() == M.PublishFile(old(State()), staged, destination, expected).fs
      ensures r.Ok? <==> M.PublishFile(old(State()), staged, destination, expected).result.Ok?
      ensures r.Ok? ==> r.value == expected
    {
      if staged !in tree { return Err(M.NotFound); }
      if revision[staged] != expected { return Err(M.Conflict); }
      var moved := PublishNoReplace(staged, destination);
      if moved.Err? { return Err(moved.error); }
      return Ok(revision[destination]);
    }

    method AtomicPublishDirectoryNoReplace(staged: Path, destination: Path, expected: set<M.StageEntry>)
      returns (r: Result<nat, M.Error>)
      requires Valid()
      modifies this
      ensures State() == M.PublishDirectory(old(State()), staged, destination, expected).fs
      ensures r.Ok? <==> M.PublishDirectory(old(State()), staged, destination, expected).result.Ok?
    {
      var observed := set p | p in tree && staged <= p :: M.StageEntry(p[|staged|..], tree[p].Directory?, revision[p]);
      if observed != expected { return Err(M.Changed); }
      var moved := PublishNoReplace(staged, destination);
      if moved.Err? { return Err(moved.error); }
      return Ok(revision[destination]);
    }

    // --------------------------------------------------------- streaming write

    /** `sum(len(node) for node in self._tree.values() if ...)`. */
    method RetainedSize() returns (total: nat)
      ensures total == M.TotalBytes(tree)
    {
      total := 0;
      var todo := tree;
      while todo != map[]
        invariant total + M.TotalBytes(todo) == M.TotalBytes(tree)
        decreases |todo|
      {
        var p :| p in todo;
        M.TotalBytesSplit(todo, p);
        total := total + M.Size(todo[p]);
        todo := todo - {p};
      }
    }

    /** `write_stream` up to its first await on the source. */
    method OpenWrite(path: Path, overwrite: bool, declared: Option<int>) returns (r: Result<M.Ticket, M.Error>)
      requires Valid()
      ensures r == M.OpenWrite(State(), path, overwrite, declared)
    {
      if path == [] { return Err(M.Conflict); }
      var parent := M.Parent(path);
      if parent != [] && parent !in tree { return Err(M.NotFound); }
      if parent in tree && tree[parent].File? { return Err(M.Conflict); }
      if path in tree && tree[path].Directory? { return Err(M.Conflict); }
      if !overwrite && path in tree { return Err(M.Conflict); }
      var retained := RetainedSize();
      retained := retained - M.SizeAt(tree, path);
      if declared.Some? {
        if declared.value < 0 { return Err(M.LimitExceeded); }
        if !M.WithinBudget(declared.value, retained) { return Err(M.LimitExceeded); }
      }
      return Ok(M.Ticket(path, overwrite, if parent in revision then Some(revision[parent]) else None, retained));
    }

    /** The end of `write_stream`, when the source is exhausted. */
    method CommitWrite(t: M.Ticket, data: Bytes) returns (r: Result<(), M.Error>)
      requires Valid()
      modifies this
      ensures M.Outcome(State(), r) == M.CommitWrite(old(State()), t, data)
    {
      var parent := M.Parent(t.path);
      var now := if parent in revision then Some(revision[parent]) else None;
      if now != t.parentRev { return Err(M.Conflict); }
      if !t.overwrite && t.path in tree { return Err(M.Conflict); }
      Store(t.path, M.File(data));
      return Ok(());
    }
  }

  function Concat(chunks: seq<Bytes>): Bytes {
    if chunks == [] then [] else Concat(chunks[..|chunks| - 1]) + chunks[|chunks| - 1]
  }

  /** The receiving loop: every prefix of the stream is held to the budget. */
  method ReceiveChunks(t: M.Ticket, chunks: seq<Bytes>) returns (r: Result<Bytes, M.Error>)
    ensures r.Ok? <==> forall n :: 0 < n <= |chunks| ==> M.WithinBudget(|Concat(chunks[..n])|, t.retained)
    ensures r.Ok? ==> r.value == Concat(chunks)
    ensures r.Err? ==> r.error == M.LimitExceeded
  {
    var buffer: Bytes := [];
    var written := 0;
    for i := 0 to |chunks|
      invariant buffer == Concat(chunks[..i]) && written == |buffer|
      invariant forall n :: 0 < n <= i ==> M.WithinBudget(|Concat(chunks[..n])|, t.retained)
    {
      assert chunks[..i + 1][..i] == chunks[..i];
      written := written + |chunks[i]|;
      if !M.WithinBudget(written, t.retained) { return Err(M.LimitExceeded); }
      buffer := buffer + chunks[i];
    }
    assert chunks[..|chunks|] == chunks;
    return Ok(buffer);
  }

  // ------------------------------------------------------------- loop arguments

  /** The loop of `mkdir` only adds directories that were missing. */
  lemma MakeDirsFrame(s: M.Fs, path: Path, i: nat)
    requires 0 < i <= |path|
    ensures var t := M.EnsureDirs(s, path, i);
            (path[..i] in t.tree <==> path[..i] in s.tree)
              && (path[..i] in s.tree ==> t.tree[path[..i]] == s.tree[path[..i]])
  {
    FrameUpTo(s, path, i, i);
  }

  lemma {:induction false} FrameUpTo(s: M.Fs, path: Path, i: nat, k: nat)
    requires 0 < k <= i <= |path|
    ensures var t := M.EnsureDirs(s, path, k);
            (path[..i] in t.tree <==> path[..i] in s.tree)
              && (path[..i] in s.tree ==> t.tree[path[..i]] == s.tree[path[..i]])
  {
    if k > 1 {
      FrameUpTo(s, path, i, k - 1);
      assert |path[..k - 1]| != |path[..i]|;
    }
  }

  lemma CutRemoves(s: M.Fs, path: Path, gone: set<Path>)
    requires s.tree.Keys == s.rev.Keys && forall p :: p in gone <==> p in s.tree && path <= p
    ensures s.tree - gone == M.Cut(s, path).tree && s.rev - gone == M.Cut(s, path).rev
  {
  }

  lemma FileIsAlone(s: M.Fs, path: Path)
    requires M.Valid(s) && M.IsFile(s, path)
    ensures forall q :: q in s.tree && path <= q ==> q == path
  {
    forall q | q in s.tree && path <= q ensures q == path {
      M.PrefixInTree(s, q, path);
    }
  }

  /** The state of the move when the paths in `done` have been taken along. */
  ghost predicate Moving(s: M.Fs, src: Path, dst: Path, done: set<Path>, tree: map<Path, M.Node>, rev: map<Path, nat>) {
    && (forall p <- done :: p in s.tree && src <= p)
    && tree.Keys == rev.Keys
    && (forall q :: q in tree <==> (q in s.tree && q !in done) || (dst <= q && src + q[|dst|..] in done))
    && (forall q :: q in tree && !(dst <= q) ==>
      q in s.tree && q in s.rev && tree[q] == s.tree[q] && rev[q] == s.rev[q])
    && (forall q :: q in tree && dst <= q ==>
          var p := src + q[|dst|..]; p in s.tree && p in s.rev && tree[q] == s.tree[p] && rev[q] == s.rev[p])
  }

  lemma EntryConserved(tree: map<Path, M.Node>, rev: map<Path, nat>, p: Path, q: Path)
    requires p in tree && p in rev && q !in tree && q !in rev
    ensures Conserved(tree, rev, (tree - {p})[q := tree[p]], (rev - {p})[q := rev[p]])
  {
    Rekeyed(tree, p, q);
    RekeyedValues(rev, p, q);
  }

  /** The same number of entries, the same number of bytes, the same revisions. */
  ghost predicate Conserved(
    tree: map<Path, M.Node>, rev: map<Path, nat>, tree': map<Path, M.Node>, rev': map<Path, nat>)
  {
    |tree'| == |tree| && M.TotalBytes(tree') == M.TotalBytes(tree) && rev'.Values == rev.Values
  }

  lemma Target(src: Path, dst: Path, p: Path)
    requires src <= p
    ensures var q := dst + p[|src|..];
            dst <= q && q[|dst|..] == p[|src|..] && src + q[|dst|..] == p
    ensures forall x :: dst <= x ==> (src + x[|dst|..] == p <==> x == dst + p[|src|..])
  {
    forall x | dst <= x ensures src + x[|dst|..] == p <==> x == dst + p[|src|..] {
      if src + x[|dst|..] == p {
        assert (src + x[|dst|..])[|src|..] == x[|dst|..];
        assert x == dst + x[|dst|..];
      }
    }
  }

  lemma MovingStarts(s: M.Fs, src: Path, dst: Path)
    requires M.Clear(s, src, dst)
    ensures Moving(s, src, dst, {}, s.tree, s.rev) && Conserved(s.tree, s.rev, s.tree, s.rev)
  {
  }

  lemma MoveOne(s: M.Fs, src: Path, dst: Path, done: set<Path>, tree: map<Path, M.Node>, rev: map<Path, nat>, p: Path)
    requires M.Clear(s, src, dst) && Moving(s, src, dst, done, tree, rev) && p in s.tree && src <= p && p !in done
    ensures var q := dst + p[|src|..];
            && p in tree && p in rev && q !in tree && q !in rev
            && Moving(s, src, dst, done + {p}, (tree - {p})[q := tree[p]], (rev - {p})[q := rev[p]])
  {
    Target(src, dst, p);
  }

  lemma Rekeyed(tree: map<Path, M.Node>, p: Path, q: Path)
    requires p in tree && q !in tree
    ensures var t := (tree - {p})[q := tree[p]];
            |t| == |tree| && M.TotalBytes(t) == M.TotalBytes(tree)
  {
    M.TotalBytesSplit(tree, p);
    M.TotalBytesPut(tree - {p}, q, tree[p]);
  }

  lemma RekeyedValues(rev: map<Path, nat>, p: Path, q: Path)
    requires p in rev && q !in rev
    ensures ((rev - {p})[q := rev[p]]).Values == rev.Values
  {
    var rev' := (rev - {p})[q := rev[p]];
    forall v | v in rev.Values ensures v in rev'.Values {
      var x :| x in rev && rev[x] == v;
      if x == p { assert rev'[q] == v; } else { assert rev'[x] == v; }
    }
    forall v | v in rev'.Values ensures v in rev.Values {
      var x :| x in rev' && rev'[x] == v;
      if x == q { assert rev[p] == v; } else { assert rev[x] == v; }
    }
  }

  lemma MovedAll(s: M.Fs, src: Path, dst: Path, affected: set<Path>, tree: map<Path, M.Node>, rev: map<Path, nat>)
    requires M.Clear(s, src, dst)
    requires forall p :: p in affected <==> p in s.tree && src <= p
    requires Moving(s, src, dst, affected, tree, rev)
    ensures tree == M.Moved(s, src, dst).tree && rev == M.Moved(s, src, dst).rev
  {
    var t := M.Moved(s, src, dst);
    forall q
      ensures (q in tree <==> q in t.tree) && (q in rev <==> q in t.rev)
      ensures q in tree ==> tree[q] == t.tree[q]
      ensures q in rev ==> rev[q] == t.rev[q]
    {
      MovedAllAt(s, src, dst, affected, tree, rev, q);
    }
    SameMap(tree, t.tree);
    SameMap(rev, t.rev);
  }

  lemma SameMap<K, V>(a: map<K, V>, b: map<K, V>)
    requires forall k <- a :: k in b && a[k] == b[k]
    requires forall k <- b :: k in a
    ensures a == b
  {
  }

  lemma MovedAllAt(s: M.Fs, src: Path, dst: Path, affected: set<Path>, tree: map<Path, M.Node>, rev: map<Path, nat>,
    q: Path)
    requires M.Clear(s, src, dst)
    requires forall p :: p in affected <==> p in s.tree && src <= p
    requires Moving(s, src, dst, affected, tree, rev)
    ensures var t := M.Moved(s, src, dst);
            && (q in tree <==> q in t.tree) && (q in rev <==> q in t.rev)
            && (q in tree ==> tree[q] == t.tree[q]) && (q in rev ==> rev[q] == t.rev[q])
  {
    if dst <= q {
      M.Suffix(dst, q);
      M.MovedAt(s, src, dst, q[|dst|..]);
      assert src <= src + q[|dst|..];
    } else {
      M.MovedElsewhere(s, src, dst, q);
    }
  }
}
