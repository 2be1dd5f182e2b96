/**
 The in-memory filesystem: a map from paths to nodes that stands for a tree.
 Each operation is a function on the state; `InMemoryFsStore` carries them out in
 place.  `issued` records, for the statements only, the content every revision
 was handed out for.
 */
module InMemoryFs {
  import opened Wrappers
  import opened Bytes

  type Path = seq<string>

  datatype Node = Directory | File(data: Bytes)

  datatype Fs = Fs(tree: map<Path, Node>, rev: map<Path, nat>, gen: nat, issued: map<nat, Node>)

  datatype Error = NotFound | Conflict | LimitExceeded | Changed

  const MAX_OBJECT_BYTES: int := 100 * 1024 * 1024
  const MAX_STORAGE_BYTES: int := 256 * 1024 * 1024

  function Parent(p: Path): Path {
    if p == [] then p else p[..|p| - 1]
  }

  predicate IsDir(s: Fs, p: Path) {
    p in s.tree && s.tree[p].Directory?
  }

  predicate IsFile(s: Fs, p: Path) {
    p in s.tree && s.tree[p].File?
  }

  // ---------------------------------------------------------------- invariant

  /** Every path but the root has a directory for a parent. */
  ghost predicate IsTree(s: Fs) {
    && IsDir(s, [])
    && (forall p {:trigger Parent(p)} :: p in s.tree && p != [] ==> IsDir(s, Parent(p)))
  }

  /** Every entry has its own revision, handed out for its present content. */
  ghost predicate Revised(s: Fs) {
    && s.tree.Keys == s.rev.Keys
    && (forall p, q :: p in s.rev && q in s.rev && s.rev[p] == s.rev[q] ==> p == q)
    && (forall r :: r in s.issued <==> 1 <= r <= s.gen)
    && (forall p :: p in s.rev ==> s.rev[p] in s.issued && s.issued[s.rev[p]] == s.tree[p])
  }

  ghost predicate Valid(s: Fs) {
    IsTree(s) && Revised(s)
  }

  /** Revisions handed out by s keep their meaning in t. */
  ghost predicate Extends(s: Fs, t: Fs) {
    s.gen <= t.gen && forall r :: r in s.issued ==> r in t.issued && t.issued[r] == s.issued[r]
  }

  const INIT: Fs := Fs(map[[] := Directory], map[[] := 1], 1, map[1 := Directory])

  lemma InitValid()
    ensures Valid(INIT)
  {
  }

  // --------------------------------------------------------------- operations

  /** Store a node and `_touch` its path. */
  function Put(s: Fs, p: Path, node: Node): Fs {
    Fs(s.tree[p := node], s.rev[p := s.gen + 1], s.gen + 1, s.issued[s.gen + 1 := node])
  }

  /** Drop a path and everything below it. */
  function Cut(s: Fs, p: Path): Fs {
    s.(tree := map q | q in s.tree && !(p <= q) :: s.tree[q],
       rev := map q | q in s.rev && !(p <= q) :: s.rev[q])
  }

  /** The ancestors of length less than i exist. */
  function EnsureDirs(s: Fs, path: Path, i: nat): Fs
    requires i <= |path|
  {
    if i <= 1 then s
    else
      var t := EnsureDirs(s, path, i - 1);
      if path[..i - 1] in t.tree then t else Put(t, path[..i - 1], Directory)
  }

  predicate FileAbove(s: Fs, path: Path) {
    exists i :: 0 < i < |path| && IsFile(s, path[..i])
  }

  datatype Outcome<+T> = Outcome(fs: Fs, result: Result<T, Error>)

  function Mkdir(s: Fs, path: Path): Outcome<()> {
    if path == [] then Outcome(s, Ok(()))
    else if FileAbove(s, path) || IsFile(s, path) then Outcome(s, Err(Conflict))
    else Outcome(Put(EnsureDirs(s, path, |path|), path, Directory), Ok(()))
  }

  function ClaimDirectory(s: Fs, path: Path): Outcome<nat> {
    if path == [] || path in s.tree then Outcome(s, Err(Conflict))
    else if Parent(path) !in s.tree then Outcome(s, Err(NotFound))
    else if IsFile(s, Parent(path)) then Outcome(s, Err(Conflict))
    else Outcome(Put(s, path, Directory), Ok(s.gen + 1))
  }

  /** The revision a caller expects, where it names one, is the present one. */
  predicate Matches(s: Fs, path: Path, expected: Option<nat>) {
    expected.Some? ==> path in s.rev && s.rev[path] == expected.value
  }

  function Delete(s: Fs, path: Path, expected: Option<nat>): Outcome<()> {
    if path !in s.tree then Outcome(s, Err(NotFound))
    else if path == [] || !Matches(s, path, expected) then Outcome(s, Err(Conflict))
    else Outcome(Cut(s, path), Ok(()))
  }

  predicate HasChild(s: Fs, path: Path) {
    exists q :: q in s.tree && q != path && path <= q
  }

  function DeleteEmpty(s: Fs, path: Path, expected: Option<nat>): Outcome<()> {
    if path !in s.tree then Outcome(s, Err(NotFound))
    else if path == [] || IsFile(s, path) || !Matches(s, path, expected) || HasChild(s, path)
    then Outcome(s, Err(Conflict))
    else Outcome(Cut(s, path), Ok(()))
  }

  /** Where the path q of the moved tree was before. */
  function Origin(s: Fs, src: Path, dst: Path, q: Path): Path {
    if q in s.tree && !(src <= q) then q else if dst <= q then src + q[|dst|..] else q
  }

  function MovedPaths(s: Fs, src: Path, dst: Path): set<Path> {
    (set q | q in s.tree && !(src <= q)) + (set p | p in s.tree && src <= p :: dst + p[|src|..])
  }

  /** The tree with everything under src re-rooted at dst. */
  function Moved(s: Fs, src: Path, dst: Path): Fs
    requires s.tree.Keys == s.rev.Keys
  {
    assert forall q :: q in MovedPaths(s, src, dst) ==> Origin(s, src, dst, q) in s.tree by {
      OriginInTree(s, src, dst);
    }
    s.(tree := map q | q in MovedPaths(s, src, dst) :: s.tree[Origin(s, src, dst, q)],
       rev := map q | q in MovedPaths(s, src, dst) :: s.rev[Origin(s, src, dst, q)])
  }

  lemma OriginInTree(s: Fs, src: Path, dst: Path)
    ensures forall q :: q in MovedPaths(s, src, dst) ==> Origin(s, src, dst, q) in s.tree
  {
    forall q | q in MovedPaths(s, src, dst) ensures Origin(s, src, dst, q) in s.tree {
      if !(q in s.tree && !(src <= q)) {
        var p :| p in s.tree && src <= p && q == dst + p[|src|..];
        assert q[|dst|..] == p[|src|..] && src + p[|src|..] == p;
      }
    }
  }

  /** Why `_publish_no_replace` refuses; None if it moves. */
  function MoveError(s: Fs, src: Path, dst: Path): Option<Error> {
    if src !in s.tree then Some(NotFound)
    else if dst in s.tree || src <= dst then Some(Conflict)
    else if Parent(dst) != [] && Parent(dst) !in s.tree then Some(NotFound)
    else if Parent(dst) != [] && IsFile(s, Parent(dst)) then Some(Conflict)
    else None
  }

  function PublishNoReplace(s: Fs, src: Path, dst: Path): Outcome<()>
    requires s.tree.Keys == s.rev.Keys
  {
    match MoveError(s, src, dst)
    case Some(e) => Outcome(s, Err(e))
    case None => Outcome(Moved(s, src, dst), Ok(()))
  }

  function PublishFile(s: Fs, staged: Path, dst: Path, expected: nat): Outcome<()>
    requires s.tree.Keys == s.rev.Keys
  {
    if staged !in s.tree then Outcome(s, Err(NotFound))
    else if s.rev[staged] != expected then Outcome(s, Err(Conflict))
    else PublishNoReplace(s, staged, dst)
  }

  datatype StageEntry = StageEntry(path: Path, isDir: bool, revision: nat)

  function Manifest(s: Fs, staged: Path): set<StageEntry>
    requires s.tree.Keys == s.rev.Keys
  {
    set p | p in s.tree && staged <= p :: StageEntry(p[|staged|..], s.tree[p].Directory?, s.rev[p])
  }

  function PublishDirectory(s: Fs, staged: Path, dst: Path, expected: set<StageEntry>): Outcome<()>
    requires s.tree.Keys == s.rev.Keys
  {
    if Manifest(s, staged) != expected then Outcome(s, Err(Changed)) else PublishNoReplace(s, staged, dst)
  }

  /** What a streaming write remembers between its check and its commit. */
  datatype Ticket = Ticket(path: Path, overwrite: bool, parentRev: Option<nat>, retained: int)

  function RevAt(s: Fs, p: Path): Option<nat> {
    if p in s.rev then Some(s.rev[p]) else None
  }

  function Size(node: Node): nat {
    if node.File? then |node.data| else 0
  }

  function SizeAt(tree: map<Path, Node>, p: Path): nat {
    if p in tree then Size(tree[p]) else 0
  }

  ghost function TotalBytes(tree: map<Path, Node>): nat
    decreases |tree|
  {
    if tree == map[] then 0
    else
      var p :| p in tree;
      Size(tree[p]) + TotalBytes(tree - {p})
  }

  /** The opening check of `write_stream`, before the declared size is looked at. */
  function OpenError(s: Fs, path: Path, overwrite: bool): Option<Error> {
    if path == [] then Some(Conflict)
    else if Parent(path) != [] && Parent(path) !in s.tree then Some(NotFound)
    else if IsFile(s, Parent(path)) || IsDir(s, path) || (!overwrite && path in s.tree) then Some(Conflict)
    else None
  }

  predicate WithinBudget(size: int, retained: int) {
    size <= MAX_OBJECT_BYTES && retained + size <= MAX_STORAGE_BYTES
  }

  ghost function OpenWrite(s: Fs, path: Path, overwrite: bool, declared: Option<int>): Result<Ticket, Error> {
    var retained := TotalBytes(s.tree) - SizeAt(s.tree, path);
    match OpenError(s, path, overwrite)
    case Some(e) => Err(e)
    case None =>
      if declared.Some? && (declared.value < 0 || !WithinBudget(declared.value, retained)) then Err(LimitExceeded)
      else Ok(Ticket(path, overwrite, RevAt(s, Parent(path)), retained))
  }

  /** The end of `write_stream`, after the last chunk. */
  function CommitWrite(s: Fs, t: Ticket, data: Bytes): Outcome<()> {
    if RevAt(s, Parent(t.path)) != t.parentRev || (!t.overwrite && t.path in s.tree) then Outcome(s, Err(Conflict))
    else Outcome(Put(s, t.path, File(data)), Ok(()))
  }

  // ------------------------------------------------------- facts about the tree

  /** In a tree every prefix of a path is there, and is a directory if proper. */
  lemma {:induction false} PrefixInTree(s: Fs, q: Path, p: Path)
    requires IsTree(s) && q in s.tree && p <= q
    ensures p in s.tree && (p != q ==> IsDir(s, p))
    decreases |q|
  {
    if p != q {
      assert p <= Parent(q);
      PrefixInTree(s, Parent(q), p);
    }
  }

  lemma PutKeepsRevised(s: Fs, p: Path, node: Node)
    requires Revised(s)
    ensures Revised(Put(s, p, node)) && Extends(s, Put(s, p, node))
  {
  }

  /** Storing a node keeps the tree exactly if its parent is a directory and no file gets children. */
  lemma PutKeepsTree(s: Fs, p: Path, node: Node)
    requires IsTree(s) && p != [] && IsDir(s, Parent(p))
    ensures IsTree(Put(s, p, node)) <==> node.Directory? || !HasChild(s, p)
  {
    var t := Put(s, p, node);
    if HasChild(s, p) {
      var q :| q in s.tree && q != p && p <= q;
      if IsTree(t) { PrefixInTree(t, q, p); }
    }
    assert forall q: Path :: Parent(q) <= q;
  }

  lemma CutKeepsValid(s: Fs, p: Path)
    requires Valid(s) && p != []
    ensures Valid(Cut(s, p)) && Extends(s, Cut(s, p))
  {
    var t := Cut(s, p);
    forall q | q in t.tree && q != [] ensures IsDir(t, Parent(q)) {
      assert Parent(q) <= q;
    }
  }

  /** A claim makes one new directory, under a directory, and its revision is new. */
  lemma ClaimMeaning(s: Fs, path: Path)
    requires Valid(s)
    ensures var o := ClaimDirectory(s, path);
            && (o.result.Ok? <==> path !in s.tree && path != [] && IsDir(s, Parent(path)))
            && (if o.result.Ok? then o.fs.tree == s.tree[path := Directory] && o.fs.rev == s.rev[path := o.result.value]
                else o.fs == s)
            && (o.result.Ok? ==> o.result.value !in s.issued)
            && (o.result.Err? ==> o.result.error in {NotFound, Conflict})
            && (o.result == Err(NotFound) <==> path != [] && Parent(path) !in s.tree)
  {
    if path != [] && path in s.tree { assert IsDir(s, Parent(path)); }
  }

  /** A delete is refused exactly for the root, a missing path or another revision; else the subtree goes. */
  lemma DeleteMeaning(s: Fs, path: Path, expected: Option<nat>)
    requires Valid(s)
    ensures var o := Delete(s, path, expected);
            && (o.result.Ok? <==> path in s.tree && path != [] && Matches(s, path, expected))
            && (o.result.Err? ==> o.fs == s)
            && (o.result.Ok? ==> forall q :: q in o.fs.tree <==> q in s.tree && !(path <= q))
            && (o.result.Ok? ==> forall q :: q in o.fs.tree ==> o.fs.tree[q] == s.tree[q] && o.fs.rev[q] == s.rev[q])
            && (o.result.Err? ==> o.result.error == if path in s.tree then Conflict else NotFound)
  {
  }

  /** An empty directory is removed alone; anything else is refused and nothing changes. */
  lemma DeleteEmptyMeaning(s: Fs, path: Path, expected: Option<nat>)
    requires Valid(s)
    ensures var o := DeleteEmpty(s, path, expected);
            && (o.result.Ok? <==> path != [] && IsDir(s, path) && Matches(s, path, expected) && !HasChild(s, path))
            && (if o.result.Ok? then o.fs.tree == s.tree - {path} && o.fs.rev == s.rev - {path} else o.fs == s)
            && (o.result.Err? ==> o.result.error == if path in s.tree then Conflict else NotFound)
  {
    if !HasChild(s, path) {
      assert forall q :: q in s.tree && path <= q ==> q == path;
      assert Cut(s, path).tree == map q | q in s.tree && !(path <= q) :: s.tree[q];
    }
  }

  // -------------------------------------------------------------------- mkdir

  /** t is s with those missing ancestors of the path that are shorter than i. */
  ghost predicate Built(s: Fs, t: Fs, path: Path, i: nat) {
    && Valid(t) && Extends(s, t)
    && (forall q :: q in s.tree ==> q in t.tree && t.tree[q] == s.tree[q] && RevAt(t, q) == RevAt(s, q))
    && (forall q :: q in t.tree && q !in s.tree ==> t.tree[q].Directory? && q <= path && |q| < i)
  }

  lemma BuildOne(s: Fs, t: Fs, path: Path, i: nat)
    requires 1 <= i < |path| && Built(s, t, path, i) && IsDir(t, path[..i - 1]) && path[..i] !in t.tree
    ensures Built(s, Put(t, path[..i], Directory), path, i + 1)
  {
    assert Parent(path[..i]) == path[..i - 1];
    PutKeepsRevised(t, path[..i], Directory);
    PutKeepsTree(t, path[..i], Directory);
  }

  lemma {:induction false} EnsureDirsKeeps(s: Fs, path: Path, i: nat)
    requires Valid(s) && 1 <= i <= |path| && !FileAbove(s, path)
    ensures var t := EnsureDirs(s, path, i); Built(s, t, path, i) && IsDir(t, path[..i - 1])
  {
    if i == 1 {
      assert path[..0] == [];
    } else {
      EnsureDirsKeeps(s, path, i - 1);
      var t, p := EnsureDirs(s, path, i - 1), path[..i - 1];
      if p in t.tree {
        assert !IsFile(s, p);
      } else {
        BuildOne(s, t, path, i - 1);
      }
    }
  }

  /** Some path on the way to, or at, the given one is a file. */
  ghost predicate Blocked(s: Fs, path: Path) {
    exists p :: p != [] && p <= path && IsFile(s, p)
  }

  lemma BlockedExactly(s: Fs, path: Path)
    requires path != []
    ensures Blocked(s, path) <==> FileAbove(s, path) || IsFile(s, path)
  {
    assert path <= path;
    if FileAbove(s, path) {
      var i :| 0 < i < |path| && IsFile(s, path[..i]);
      assert path[..i] <= path;
    }
    if Blocked(s, path) {
      var p :| p != [] && p <= path && IsFile(s, p);
      assert p == path[..|p|];
      if |p| < |path| { assert IsFile(s, path[..|p|]); } else { assert p == path; }
    }
  }

  lemma MkdirMakes(s: Fs, path: Path)
    requires Valid(s) && path != [] && !FileAbove(s, path) && !IsFile(s, path)
    ensures var t := Put(EnsureDirs(s, path, |path|), path, Directory);
            && Valid(t) && Extends(s, t) && t.rev[path] > s.gen
            && (forall q :: q in s.tree ==> q in t.tree && t.tree[q] == s.tree[q])
            && (forall q :: q in s.tree && q != path ==> t.rev[q] == s.rev[q])
            && (forall q :: q in t.tree ==> q in s.tree || q <= path)
  {
    EnsureDirsKeeps(s, path, |path|);
    var u := EnsureDirs(s, path, |path|);
    PutKeepsRevised(u, path, Directory);
    PutKeepsTree(u, path, Directory);
    OthersKeepRevisions(s, u, path);
  }

  lemma OthersKeepRevisions(s: Fs, u: Fs, path: Path)
    requires s.tree.Keys == s.rev.Keys && u.tree.Keys == u.rev.Keys
    requires forall q :: q in s.tree ==> q in u.tree && RevAt(u, q) == RevAt(s, q)
    ensures forall q :: q in s.tree && q != path ==>
      q in Put(u, path, Directory).rev && Put(u, path, Directory).rev[q] == s.rev[q]
  {
  }

  /** What `mkdir` does: it makes the path and its missing ancestors, or changes nothing at all. */
  lemma MkdirMeaning(s: Fs, path: Path)
    requires Valid(s)
    ensures var o := Mkdir(s, path);
            && Valid(o.fs) && Extends(s, o.fs)
            && (o.result.Err? <==> Blocked(s, path))
            && (o.result.Err? ==> o.fs == s)
            && (o.result.Ok? ==> forall q :: q in o.fs.tree <==> q in s.tree || q <= path)
            && (forall q :: q in s.tree ==> q in o.fs.tree && o.fs.tree[q] == s.tree[q])
            && (forall q :: q in s.tree && q != path ==> o.fs.rev[q] == s.rev[q])
            && (o.result.Ok? && path != [] ==> o.fs.rev[path] > s.gen)
            && (o.result.Err? ==> o.result.error == Conflict)
  {
    if path != [] {
      BlockedExactly(s, path);
      if !FileAbove(s, path) && !IsFile(s, path) {
        MkdirMakes(s, path);
        var t := Mkdir(s, path).fs;
        forall q | q <= path ensures q in t.tree {
          PrefixInTree(t, path, q);
        }
      }
    }
  }

  /** An ancestor that is present has all of its own ancestors, so nothing was made before it. */
  lemma {:induction false} EnsureDirsIdle(s: Fs, path: Path, i: nat)
    requires IsTree(s) && 0 < i <= |path| && path[..i] in s.tree
    ensures EnsureDirs(s, path, i) == s
  {
    EnsureDirsIdleUpTo(s, path, i, i);
  }

  lemma {:induction false} EnsureDirsIdleUpTo(s: Fs, path: Path, i: nat, k: nat)
    requires IsTree(s) && k <= i <= |path| && path[..i] in s.tree
    ensures EnsureDirs(s, path, k) == s
  {
    if k > 1 {
      EnsureDirsIdleUpTo(s, path, i, k - 1);
      assert path[..k - 1] <= path[..i];
      PrefixInTree(s, path[..i], path[..k - 1]);
    }
  }

  // ------------------------------------------------------------- subtree move

  lemma Chain(a: Path, b: Path, c: Path)
    ensures a <= b && b <= c ==> a <= c
  {
  }

  lemma Nested(a: Path, b: Path, q: Path)
    ensures a <= q && b <= q ==> a <= b || b <= a
  {
    if a <= q && b <= q {
      assert forall i :: 0 <= i < |a| && i < |b| ==> a[i] == q[i] == b[i];
    }
  }

  lemma NothingBelow(s: Fs, q: Path, p: Path)
    requires IsTree(s) && p !in s.tree
    ensures p <= q ==> q !in s.tree
  {
    if p <= q && q in s.tree { PrefixInTree(s, q, p); }
  }

  /** There is nothing at or below dst, and dst is not within src. */
  ghost predicate Clear(s: Fs, src: Path, dst: Path) {
    && s.tree.Keys == s.rev.Keys
    && (forall q :: dst <= q ==> q !in s.tree && !(src <= q))
  }

  /** A move that is allowed has a fresh place for every path it takes along. */
  lemma MoveIsFresh(s: Fs, src: Path, dst: Path)
    requires Valid(s) && MoveError(s, src, dst).None?
    ensures !(dst <= src) && !(src <= dst) && dst != [] && src != []
    ensures Clear(s, src, dst)
  {
    NothingBelow(s, src, dst);
    assert [] <= dst;
    forall q | dst <= q ensures q !in s.tree && !(src <= q) {
      NothingBelow(s, q, dst);
      Nested(src, dst, q);
    }
  }

  lemma MovedAt(s: Fs, src: Path, dst: Path, r: Path)
    requires Clear(s, src, dst)
    ensures var t := Moved(s, src, dst);
            && (dst + r in t.tree <==> src + r in s.tree)
            && (src + r in s.tree ==> t.tree[dst + r] == s.tree[src + r] && t.rev[dst + r] == s.rev[src + r])
  {
    var p, q := src + r, dst + r;
    assert dst <= q && src <= p && p[|src|..] == r && q[|dst|..] == r;
    assert Origin(s, src, dst, q) == p;
    OriginInTree(s, src, dst);
    if p in s.tree { assert dst + p[|src|..] in MovedPaths(s, src, dst); }
  }

  lemma MovedElsewhere(s: Fs, src: Path, dst: Path, q: Path)
    requires s.tree.Keys == s.rev.Keys && !(dst <= q)
    ensures var t := Moved(s, src, dst);
            && (q in t.tree <==> q in s.tree && !(src <= q))
            && (q in t.tree ==> t.tree[q] == s.tree[q] && t.rev[q] == s.rev[q])
  {
    assert forall p :: p in s.tree && src <= p ==> dst <= dst + p[|src|..];
  }

  /** The moved tree, path by path: src re-rooted at dst and all else unchanged. */
  lemma MovedMeaning(s: Fs, src: Path, dst: Path)
    requires Valid(s) && MoveError(s, src, dst).None?
    ensures var t := Moved(s, src, dst);
            && (forall q :: !(src <= q) && !(dst <= q) ==>
                 (q in t.tree <==> q in s.tree) && (q in s.tree ==> t.tree[q] == s.tree[q] && t.rev[q] == s.rev[q]))
            && (forall r: Path :: dst + r in t.tree <==> src + r in s.tree)
            && (forall r: Path :: src + r in s.tree ==>
              t.tree[dst + r] == s.tree[src + r] && t.rev[dst + r] == s.rev[src + r])
            && (forall q :: src <= q ==> q !in t.tree)
  {
    var t := Moved(s, src, dst);
    MoveIsFresh(s, src, dst);
    forall r: Path
      ensures dst + r in t.tree <==> src + r in s.tree
      ensures src + r in s.tree ==> t.tree[dst + r] == s.tree[src + r] && t.rev[dst + r] == s.rev[src + r]
    {
      MovedAt(s, src, dst, r);
    }
    forall q | !(dst <= q)
      ensures q in t.tree <==> q in s.tree && !(src <= q)
      ensures q in t.tree ==> t.tree[q] == s.tree[q] && t.rev[q] == s.rev[q]
    {
      MovedElsewhere(s, src, dst, q);
    }
  }

  lemma MovedParentInside(s: Fs, src: Path, dst: Path, r: Path)
    requires Valid(s) && MoveError(s, src, dst).None? && dst + r in Moved(s, src, dst).tree && r != []
    ensures IsDir(Moved(s, src, dst), Parent(dst + r))
  {
    ParentOfSum(dst, r);
    ParentOfSum(src, r);
    MoveIsFresh(s, src, dst);
    MovedAt(s, src, dst, r);
    MovedAt(s, src, dst, Parent(r));
  }

  lemma MovedParentOutside(s: Fs, src: Path, dst: Path, q: Path)
    requires Valid(s) && MoveError(s, src, dst).None? && q in Moved(s, src, dst).tree && q != []
    requires q == dst || !(dst <= q)
    ensures IsDir(Moved(s, src, dst), Parent(q))
  {
    var p := Parent(q);
    assert p <= q;
    MoveIsFresh(s, src, dst);
    Chain(src, p, q);
    Chain(dst, p, q);
    if q != dst { MovedElsewhere(s, src, dst, q); }
    assert !(dst <= p);
    MovedElsewhere(s, src, dst, p);
  }

  /** A moved entry still has a directory for a parent. */
  lemma MovedParent(s: Fs, src: Path, dst: Path, q: Path)
    requires Valid(s) && MoveError(s, src, dst).None? && q in Moved(s, src, dst).tree && q != []
    ensures IsDir(Moved(s, src, dst), Parent(q))
  {
    if dst <= q && q != dst {
      Suffix(dst, q);
      MovedParentInside(s, src, dst, q[|dst|..]);
    } else {
      MovedParentOutside(s, src, dst, q);
    }
  }

  lemma Suffix(p: Path, q: Path)
    requires p <= q
    ensures q == p + q[|p|..] && (p != q ==> q[|p|..] != [])
  {
  }

  lemma ParentOfSum(p: Path, r: Path)
    requires r != []
    ensures Parent(p + r) == p + Parent(r)
  {
  }

  lemma MovedKeepsTree(s: Fs, src: Path, dst: Path)
    requires Valid(s) && MoveError(s, src, dst).None?
    ensures IsTree(Moved(s, src, dst))
  {
    MoveIsFresh(s, src, dst);
    assert !(src <= []) && !(dst <= []);
    MovedElsewhere(s, src, dst, []);
    forall q | q in Moved(s, src, dst).tree && q != [] ensures IsDir(Moved(s, src, dst), Parent(q)) {
      MovedParent(s, src, dst, q);
    }
  }

  lemma MovedKeepsRevised(s: Fs, src: Path, dst: Path)
    requires Valid(s) && MoveError(s, src, dst).None?
    ensures Revised(Moved(s, src, dst)) && Extends(s, Moved(s, src, dst))
  {
    MoveIsFresh(s, src, dst);
    OriginInTree(s, src, dst);
    var t := Moved(s, src, dst);
    forall p, q | p in t.rev && q in t.rev && t.rev[p] == t.rev[q] ensures p == q {
      var a, b := Origin(s, src, dst, p), Origin(s, src, dst, q);
      assert a == b;
      OriginInverse(s, src, dst, p);
      OriginInverse(s, src, dst, q);
    }
  }

  /** A moved path is recovered from where it came from. */
  lemma OriginInverse(s: Fs, src: Path, dst: Path, q: Path)
    requires q in MovedPaths(s, src, dst)
    requires forall p :: dst <= p ==> p !in s.tree && !(src <= p)
    ensures var p := Origin(s, src, dst, q); q == if src <= p then dst + p[|src|..] else p
  {
    if !(q in s.tree && !(src <= q)) {
      var p :| p in s.tree && src <= p && q == dst + p[|src|..];
      assert dst <= q && q[|dst|..] == p[|src|..] && src + p[|src|..] == p;
    }
  }

  // ------------------------------------------------------------ bytes retained

  lemma {:induction false} TotalBytesSplit(tree: map<Path, Node>, p: Path)
    requires p in tree
    ensures TotalBytes(tree) == Size(tree[p]) + TotalBytes(tree - {p})
    decreases |tree|
  {
    var q :| q in tree && TotalBytes(tree) == Size(tree[q]) + TotalBytes(tree - {q});
    if p != q {
      TotalBytesSplit(tree - {q}, p);
      TotalBytesSplit(tree - {p}, q);
      assert tree - {q} - {p} == tree - {p} - {q};
    }
  }

  lemma TotalBytesPut(tree: map<Path, Node>, p: Path, node: Node)
    ensures TotalBytes(tree[p := node]) == TotalBytes(tree) - SizeAt(tree, p) + Size(node)
  {
    TotalBytesSplit(tree[p := node], p);
    if p in tree {
      TotalBytesSplit(tree, p);
      assert tree[p := node] - {p} == tree - {p};
    } else {
      assert tree[p := node] - {p} == tree;
    }
  }

  /**
   How much the store holds after a commit.  The bound is kept exactly when the
   rest of the store did not outgrow what the opening check counted.
   */
  lemma CommitTotal(s: Fs, t: Ticket, data: Bytes)
    requires CommitWrite(s, t, data).result.Ok?
    ensures TotalBytes(CommitWrite(s, t, data).fs.tree) == TotalBytes(s.tree) - SizeAt(s.tree, t.path) + |data|
  {
    TotalBytesPut(s.tree, t.path, File(data));
  }

  lemma SequentialWriteWithinBudget(s: Fs, path: Path, overwrite: bool, declared: Option<int>, data: Bytes)
    requires TotalBytes(s.tree) <= MAX_STORAGE_BYTES
    requires OpenWrite(s, path, overwrite, declared).Ok?
    requires data == [] || WithinBudget(|data|, OpenWrite(s, path, overwrite, declared).value.retained)
    ensures TotalBytes(CommitWrite(s, OpenWrite(s, path, overwrite, declared).value, data).fs.tree) <= MAX_STORAGE_BYTES
  {
    var t := OpenWrite(s, path, overwrite, declared).value;
    CommitTotal(s, t, data);
  }

  /**
   A write is let in exactly at a path that is no directory, in a directory, that is
   free or may be overwritten, with room for what it declares beside all other files.
   */
  lemma OpenMeaning(s: Fs, path: Path, overwrite: bool, declared: Option<int>)
    requires Valid(s)
    ensures var r, others := OpenWrite(s, path, overwrite, declared), TotalBytes(s.tree - {path});
            var place := path != [] && IsDir(s, Parent(path)) && !IsDir(s, path) && (overwrite || path !in s.tree);
            var room := declared.Some? ==>
              0 <= declared.value <= MAX_OBJECT_BYTES && others + declared.value <= MAX_STORAGE_BYTES;
            && (r.Ok? <==> place && room)
            && (r == Err(LimitExceeded) <==> place && !room)
            && (r == Err(NotFound) <==> path != [] && Parent(path) !in s.tree)
            && (r.Err? ==> r.error in {NotFound, Conflict, LimitExceeded})
            && (r.Ok? ==> r.value == Ticket(path, overwrite, Some(s.rev[Parent(path)]), others))
  {
    if path in s.tree {
      TotalBytesSplit(s.tree, path);
    } else {
      assert s.tree - {path} == s.tree;
    }
    if path != [] && path in s.tree { assert IsDir(s, Parent(path)); }
  }

  /**
   A write that began in s commits in a later state t exactly if its directory is
   still the entry it was and its path is free or may be overwritten.
   */
  lemma LateCommit(s: Fs, path: Path, overwrite: bool, declared: Option<int>, t: Fs, data: Bytes)
    requires Valid(s) && Valid(t) && Extends(s, t) && OpenWrite(s, path, overwrite, declared).Ok?
    ensures var o := CommitWrite(t, OpenWrite(s, path, overwrite, declared).value, data);
            var dir := Parent(path);
            && (o.result.Ok? <==> IsDir(t, dir) && t.rev[dir] == s.rev[dir] && (overwrite || path !in t.tree))
            && (if o.result.Ok? then o.fs.tree == t.tree[path := File(data)] && o.fs.rev == t.rev[path := t.gen + 1]
                else o == Outcome(t, Err(Conflict)))
  {
    OpenMeaning(s, path, overwrite, declared);
    var dir := Parent(path);
    if dir in t.tree && t.rev[dir] == s.rev[dir] { assert t.tree[dir] == s.tree[dir]; }
  }

  /** A write that nothing interrupts commits, and leaves a file with just its data at its path. */
  lemma WriteMeaning(s: Fs, path: Path, overwrite: bool, declared: Option<int>, data: Bytes)
    requires Valid(s) && OpenWrite(s, path, overwrite, declared).Ok?
    ensures var o := CommitWrite(s, OpenWrite(s, path, overwrite, declared).value, data);
            && o.result.Ok? && o.fs.tree == s.tree[path := File(data)] && (overwrite || path !in s.tree)
            && o.fs.rev == s.rev[path := s.gen + 1] && s.gen + 1 !in s.issued
            && Valid(o.fs) && Extends(s, o.fs)
  {
    if HasChild(s, path) {
      var q :| q in s.tree && q != path && path <= q;
      PrefixInTree(s, q, path);
    }
    PutKeepsTree(s, path, File(data));
    PutKeepsRevised(s, path, File(data));
  }

  // ------------------------------------------------------ interleaved histories

  /** The operations that are one atomic step; `WriteOp` is a streaming write that nothing interrupts. */
  datatype FsOp =
    | MkdirOp(path: Path)
    | ClaimOp(path: Path)
    | DeleteOp(path: Path, expected: Option<nat>)
    | DeleteEmptyOp(path: Path, expected: Option<nat>)
    | RenameOp(src: Path, dst: Path)
    | PublishFileOp(src: Path, dst: Path, revision: nat)
    | PublishDirectoryOp(src: Path, dst: Path, manifest: set<StageEntry>)
    | WriteOp(path: Path, overwrite: bool, declared: Option<int>, data: Bytes)

  /** Opening, receiving and committing at one go. */
  ghost function WriteAtOnce(s: Fs, path: Path, overwrite: bool, declared: Option<int>, data: Bytes): Fs {
    match OpenWrite(s, path, overwrite, declared)
    case Err(_) => s
    case Ok(t) => if data == [] || WithinBudget(|data|, t.retained) then CommitWrite(s, t, data).fs else s
  }

  ghost function Apply(s: Fs, op: FsOp): Fs
    requires s.tree.Keys == s.rev.Keys
  {
    match op
    case MkdirOp(p) => Mkdir(s, p).fs
    case ClaimOp(p) => ClaimDirectory(s, p).fs
    case DeleteOp(p, e) => Delete(s, p, e).fs
    case DeleteEmptyOp(p, e) => DeleteEmpty(s, p, e).fs
    case RenameOp(a, b) => PublishNoReplace(s, a, b).fs
    case PublishFileOp(a, b, r) => PublishFile(s, a, b, r).fs
    case PublishDirectoryOp(a, b, m) => PublishDirectory(s, a, b, m).fs
    case WriteOp(p, o, d, data) => WriteAtOnce(s, p, o, d, data)
  }

  /** A whole operation, or one of the two halves of a streaming write. */
  datatype Op =
    | Plain(op: FsOp)
    | OpenOp(id: nat, path: Path, overwrite: bool, declared: Option<int>)
    | CommitOp(id: nat, data: Bytes)

  /** The store, and the streaming writes that are between check and commit. */
  datatype World = World(fs: Fs, open: map<nat, Ticket>)

  ghost function Step(w: World, op: Op): World
    requires w.fs.tree.Keys == w.fs.rev.Keys
  {
    match op
    case Plain(o) => w.(fs := Apply(w.fs, o))
    case OpenOp(id, p, o, d) =>
      var r := OpenWrite(w.fs, p, o, d);
      if r.Ok? && id !in w.open then w.(open := w.open[id := r.value]) else w
    case CommitOp(id, data) =>
      if id in w.open then World(CommitWrite(w.fs, w.open[id], data).fs, w.open - {id}) else w
  }

  /** A commit would put a file where a directory with entries has appeared. */
  ghost predicate Buries(w: World, op: Op) {
    op.CommitOp? && op.id in w.open
    && CommitWrite(w.fs, w.open[op.id], op.data).result.Ok? && HasChild(w.fs, w.open[op.id].path)
  }

  /** Each open write remembers the revision its parent directory had. */
  ghost predicate Ticketed(w: World) {
    forall id :: id in w.open ==> Remembered(w.fs, w.open[id])
  }

  ghost predicate Remembered(s: Fs, t: Ticket) {
    t.path != [] && t.parentRev.Some? && t.parentRev.value in s.issued && s.issued[t.parentRev.value].Directory?
  }

  ghost predicate Sound(w: World) {
    Valid(w.fs) && Ticketed(w)
  }

  lemma MovedKeepsValid(s: Fs, src: Path, dst: Path)
    requires Valid(s)
    ensures Valid(PublishNoReplace(s, src, dst).fs) && Extends(s, PublishNoReplace(s, src, dst).fs)
  {
    if MoveError(s, src, dst).None? {
      MovedKeepsTree(s, src, dst);
      MovedKeepsRevised(s, src, dst);
    }
  }

  /** There is something to move, and a free place for it in a directory outside of it. */
  ghost predicate Movable(s: Fs, src: Path, dst: Path) {
    src in s.tree && dst !in s.tree && !(src <= dst) && IsDir(s, Parent(dst))
  }

  lemma MovableExactly(s: Fs, src: Path, dst: Path)
    requires Valid(s)
    ensures MoveError(s, src, dst).None? <==> Movable(s, src, dst)
    ensures MoveError(s, src, dst).Some? ==> MoveError(s, src, dst).value in {NotFound, Conflict}
    ensures MoveError(s, src, dst) == Some(NotFound) <==> src !in s.tree || (!(src <= dst) && Parent(dst) !in s.tree)
  {
    if dst != [] && dst in s.tree { assert IsDir(s, Parent(dst)); }
  }

  /** A move is made exactly if it can be; otherwise nothing changes. */
  lemma MoveMeaning(s: Fs, src: Path, dst: Path)
    requires Valid(s)
    ensures var o := PublishNoReplace(s, src, dst);
            && (o.result.Ok? <==> Movable(s, src, dst))
            && (if o.result.Ok? then o.fs == Moved(s, src, dst) && o.fs.gen == s.gen else o.fs == s)
            && (o.result.Err? ==> o.result.error in {NotFound, Conflict})
            && (o.result == Err(NotFound) <==> src !in s.tree || (!(src <= dst) && Parent(dst) !in s.tree))
  {
    MovableExactly(s, src, dst);
  }

  /** A conditional publish moves exactly if the move can be made and the path has the revision expected. */
  lemma PublishFileMeaning(s: Fs, src: Path, dst: Path, expected: nat)
    requires Valid(s)
    ensures var o := PublishFile(s, src, dst, expected);
            && (o.result.Ok? <==> Movable(s, src, dst) && s.rev[src] == expected)
            && (src in s.tree && s.rev[src] != expected ==> o == Outcome(s, Err(Conflict)))
            && (src in s.tree && s.rev[src] == expected ==> o == PublishNoReplace(s, src, dst))
            && (src !in s.tree ==> o == Outcome(s, Err(NotFound)))
  {
    MovableExactly(s, src, dst);
  }

  /** And one of a directory exactly if the move can be made and the subtree is as listed. */
  lemma PublishDirectoryMeaning(s: Fs, src: Path, dst: Path, expected: set<StageEntry>)
    requires Valid(s)
    ensures var o := PublishDirectory(s, src, dst, expected);
            && (o.result.Ok? <==> Movable(s, src, dst) && Manifest(s, src) == expected)
            && (Manifest(s, src) != expected ==> o == Outcome(s, Err(Changed)))
            && (Manifest(s, src) == expected ==> o == PublishNoReplace(s, src, dst))
  {
    MovableExactly(s, src, dst);
  }

  /** A ticket's parent, unchanged by revision, is still the directory it was. */
  lemma CommitKeepsTree(s: Fs, t: Ticket, data: Bytes)
    requires Valid(s) && Remembered(s, t) && CommitWrite(s, t, data).result.Ok?
    ensures IsTree(CommitWrite(s, t, data).fs) <==> !HasChild(s, t.path)
    ensures Revised(CommitWrite(s, t, data).fs) && Extends(s, CommitWrite(s, t, data).fs)
    ensures !t.overwrite ==> !HasChild(s, t.path)
  {
    PutKeepsTree(s, t.path, File(data));
    PutKeepsRevised(s, t.path, File(data));
    if !t.overwrite && HasChild(s, t.path) {
      var q :| q in s.tree && q != t.path && t.path <= q;
      PrefixInTree(s, q, t.path);
    }
  }

  lemma ClaimKeepsValid(s: Fs, path: Path)
    requires Valid(s)
    ensures Valid(ClaimDirectory(s, path).fs) && Extends(s, ClaimDirectory(s, path).fs)
  {
    if ClaimDirectory(s, path).result.Ok? {
      PutKeepsTree(s, path, Directory);
      PutKeepsRevised(s, path, Directory);
    }
  }

  lemma DeleteKeepsValid(s: Fs, path: Path, expected: Option<nat>)
    requires Valid(s)
    ensures Valid(Delete(s, path, expected).fs) && Extends(s, Delete(s, path, expected).fs)
    ensures Valid(DeleteEmpty(s, path, expected).fs) && Extends(s, DeleteEmpty(s, path, expected).fs)
  {
    if path != [] { CutKeepsValid(s, path); }
  }

  lemma WriteKeepsValid(s: Fs, path: Path, overwrite: bool, declared: Option<int>, data: Bytes)
    requires Valid(s)
    ensures Valid(WriteAtOnce(s, path, overwrite, declared, data))
      && Extends(s, WriteAtOnce(s, path, overwrite, declared, data))
  {
    if OpenWrite(s, path, overwrite, declared).Ok? { WriteMeaning(s, path, overwrite, declared, data); }
  }

  lemma PublishFileKeepsValid(s: Fs, src: Path, dst: Path, revision: nat)
    requires Valid(s)
    ensures Valid(PublishFile(s, src, dst, revision).fs) && Extends(s, PublishFile(s, src, dst, revision).fs)
  {
    MovedKeepsValid(s, src, dst);
  }

  lemma PublishDirectoryKeepsValid(s: Fs, src: Path, dst: Path, manifest: set<StageEntry>)
    requires Valid(s)
    ensures Valid(PublishDirectory(s, src, dst, manifest).fs) && Extends(s, PublishDirectory(s, src, dst, manifest).fs)
  {
    MovedKeepsValid(s, src, dst);
  }

  lemma MoveOpKeepsValid(s: Fs, op: FsOp)
    requires Valid(s) && (op.RenameOp? || op.PublishFileOp? || op.PublishDirectoryOp?)
    ensures Valid(Apply(s, op)) && Extends(s, Apply(s, op))
  {
    match op
    case RenameOp(a, b) => MovedKeepsValid(s, a, b);
    case PublishFileOp(a, b, r) => PublishFileKeepsValid(s, a, b, r);
    case PublishDirectoryOp(a, b, m) => PublishDirectoryKeepsValid(s, a, b, m);
  }

  lemma ApplyKeepsValid(s: Fs, op: FsOp)
    requires Valid(s)
    ensures Valid(Apply(s, op)) && Extends(s, Apply(s, op))
  {
    match op
    case MkdirOp(p) => MkdirMeaning(s, p);
    case ClaimOp(p) => ClaimKeepsValid(s, p);
    case DeleteOp(p, e) => DeleteKeepsValid(s, p, e);
    case DeleteEmptyOp(p, e) => DeleteKeepsValid(s, p, e);
    case WriteOp(p, o, d, data) => WriteKeepsValid(s, p, o, d, data);
    case _ => MoveOpKeepsValid(s, op);
  }

  lemma OpenRemembers(s: Fs, path: Path, overwrite: bool, declared: Option<int>)
    requires Valid(s) && OpenWrite(s, path, overwrite, declared).Ok?
    ensures Remembered(s, OpenWrite(s, path, overwrite, declared).value)
  {
  }

  lemma StillTicketed(w: World, s: Fs)
    requires Ticketed(w) && Extends(w.fs, s)
    ensures Ticketed(w.(fs := s))
  {
  }

  /** Every step keeps the tree, except exactly a commit that buries directory entries. */
  lemma StepSound(w: World, op: Op)
    requires Sound(w)
    ensures Valid(Step(w, op).fs) <==> !Buries(w, op)
    ensures Extends(w.fs, Step(w, op).fs) && Ticketed(Step(w, op))
  {
    match op
    case Plain(o) =>
      ApplyKeepsValid(w.fs, o);
      StillTicketed(w, Apply(w.fs, o));
    case OpenOp(id, p, o, d) =>
      if OpenWrite(w.fs, p, o, d).Ok? { OpenRemembers(w.fs, p, o, d); }
    case CommitOp(id, data) =>
      if id in w.open && CommitWrite(w.fs, w.open[id], data).result.Ok? {
        CommitKeepsTree(w.fs, w.open[id], data);
        StillTicketed(w, Step(w, op).fs);
      }
  }

  lemma SoundStep(w: World, op: Op, v: World)
    requires Sound(w) && !Buries(w, op) && v == Step(w, op)
    ensures Sound(v) && Extends(w.fs, v.fs)
  {
    StepSound(w, op);
  }

  /** A run, as the worlds it goes through. */
  ghost predicate IsRun(worlds: seq<World>, ops: seq<Op>) {
    && |worlds| == |ops| + 1
    && (forall i {:trigger ops[i]} :: 0 <= i < |ops| ==>
          worlds[i].fs.tree.Keys == worlds[i].fs.rev.Keys && worlds[i + 1] == Step(worlds[i], ops[i]))
  }

  lemma {:induction false} StaysSound(worlds: seq<World>, ops: seq<Op>, n: nat)
    requires IsRun(worlds, ops) && Sound(worlds[0]) && n <= |ops|
    requires forall i :: 0 <= i < n ==> !Buries(worlds[i], ops[i])
    ensures Sound(worlds[n])
  {
    if n > 0 {
      StaysSound(worlds, ops, n - 1);
      SoundStep(worlds[n - 1], ops[n - 1], worlds[n]);
    }
  }

  lemma StepExtends(worlds: seq<World>, ops: seq<Op>, n: nat)
    requires IsRun(worlds, ops) && Sound(worlds[0]) && n < |ops|
    requires forall i :: 0 <= i <= n ==> !Buries(worlds[i], ops[i])
    ensures Extends(worlds[n].fs, worlds[n + 1].fs)
  {
    StaysSound(worlds, ops, n);
    SoundStep(worlds[n], ops[n], worlds[n + 1]);
  }

  lemma {:induction false} RunExtends(worlds: seq<World>, ops: seq<Op>, m: nat, n: nat)
    requires IsRun(worlds, ops) && Sound(worlds[0]) && m <= n <= |ops|
    requires forall i :: 0 <= i < n ==> !Buries(worlds[i], ops[i])
    ensures Extends(worlds[m].fs, worlds[n].fs)
  {
    if m < n {
      RunExtends(worlds, ops, m, n - 1);
      StepExtends(worlds, ops, n - 1);
      ExtendsTransitive(worlds[m].fs, worlds[n - 1].fs, worlds[n].fs);
    }
  }

  /**
   Tree safety and lasting revisions over a run: while no commit has buried
   directory entries, the store is a tree and revisions keep their meaning.
   */
  lemma RunSound(worlds: seq<World>, ops: seq<Op>, m: nat, n: nat)
    requires IsRun(worlds, ops) && Sound(worlds[0]) && m <= n <= |ops|
    requires forall i :: 0 <= i < n ==> !Buries(worlds[i], ops[i])
    ensures Sound(worlds[n]) && Extends(worlds[m].fs, worlds[n].fs)
  {
    StaysSound(worlds, ops, n);
    RunExtends(worlds, ops, m, n);
  }

  /** And a commit that does bury entries always leaves something that is no tree. */
  lemma RunSoundExactly(worlds: seq<World>, ops: seq<Op>)
    requires IsRun(worlds, ops) && Sound(worlds[0])
    ensures (forall n :: 0 <= n <= |ops| ==> Valid(worlds[n].fs)) <==>
      (forall i :: 0 <= i < |ops| ==> !Buries(worlds[i], ops[i]))
  {
    if i :| 0 <= i < |ops| && Buries(worlds[i], ops[i]) {
      FirstBurial(worlds, ops, i);
    } else {
      forall n | 0 <= n <= |ops| ensures Valid(worlds[n].fs) {
        RunSound(worlds, ops, 0, n);
      }
    }
  }

  lemma {:induction false} FirstBurial(worlds: seq<World>, ops: seq<Op>, i: nat)
    requires IsRun(worlds, ops) && Sound(worlds[0]) && i < |ops| && Buries(worlds[i], ops[i])
    ensures exists n :: 0 <= n <= |ops| && !Valid(worlds[n].fs)
  {
    if k :| 0 <= k < i && Buries(worlds[k], ops[k]) {
      FirstBurial(worlds, ops, k);
    } else {
      RunSound(worlds, ops, 0, i);
      StepSound(worlds[i], ops[i]);
      assert !Valid(worlds[i + 1].fs);
    }
  }

  /** A directory is made at the path of an overwriting write, with an entry in it. */
  lemma DirectoryOvertakesWrite()
    ensures var w1 := Step(World(INIT, map[]), OpenOp(0, ["a"], true, None));
            w1.fs == INIT && 0 in w1.open && w1.open[0] == Ticket(["a"], true, Some(1), w1.open[0].retained)
    ensures Mkdir(INIT, ["a", "b"]) == Outcome(Put(Put(INIT, ["a"], Directory), ["a", "b"], Directory), Ok(()))
  {
    assert Parent(["a"]) == [];
    assert ["a", "b"][..1] == ["a"];
    assert EnsureDirs(INIT, ["a", "b"], 1) == INIT;
  }

  /** So a commit can bury entries: the write then replaces that directory. */
  lemma OverwriteCanBury()
    ensures var w1 := Step(World(INIT, map[]), OpenOp(0, ["a"], true, None));
            var w2 := Step(w1, Plain(MkdirOp(["a", "b"])));
            Sound(w2) && Buries(w2, CommitOp(0, [])) && !Valid(Step(w2, CommitOp(0, [])).fs)
  {
    InitValid();
    var w0 := World(INIT, map[]);
    DirectoryOvertakesWrite();
    var w1 := Step(w0, OpenOp(0, ["a"], true, None));
    StepSound(w0, OpenOp(0, ["a"], true, None));
    StepSound(w1, Plain(MkdirOp(["a", "b"])));
    var w2 := Step(w1, Plain(MkdirOp(["a", "b"])));
    assert ["a", "b"] in w2.fs.tree && ["a"] <= ["a", "b"];
    assert Parent(["a"]) == [];
    StepSound(w2, CommitOp(0, []));
  }

  lemma ExtendsTransitive(a: Fs, b: Fs, c: Fs)
    requires Extends(a, b) && Extends(b, c)
    ensures Extends(a, c)
  {
  }

  ghost predicate NoOverwrites(w: World) {
    forall id :: id in w.open ==> !w.open[id].overwrite
  }

  lemma StepNeverBuries(w: World, op: Op)
    requires Sound(w) && NoOverwrites(w) && (op.OpenOp? ==> !op.overwrite)
    ensures !Buries(w, op) && NoOverwrites(Step(w, op))
  {
    if op.CommitOp? && op.id in w.open && CommitWrite(w.fs, w.open[op.id], op.data).result.Ok? {
      CommitKeepsTree(w.fs, w.open[op.id], op.data);
    }
  }

  /** Interrupted writes that refuse to overwrite can be interleaved with whole operations of any kind. */
  lemma {:induction false} InterleavingIsSafe(worlds: seq<World>, ops: seq<Op>, n: nat)
    requires IsRun(worlds, ops) && Sound(worlds[0]) && NoOverwrites(worlds[0]) && n <= |ops|
    requires forall i :: 0 <= i < |ops| ==> ops[i].OpenOp? ==> !ops[i].overwrite
    ensures Sound(worlds[n]) && NoOverwrites(worlds[n]) && Extends(worlds[0].fs, worlds[n].fs)
  {
    if n > 0 {
      InterleavingIsSafe(worlds, ops, n - 1);
      assert ops[n - 1].OpenOp? ==> !ops[n - 1].overwrite;
      StepNeverBuries(worlds[n - 1], ops[n - 1]);
      StepSound(worlds[n - 1], ops[n - 1]);
      ExtendsTransitive(worlds[0].fs, worlds[n - 1].fs, worlds[n].fs);
    }
  }

  // ------------------------------------------------ what a revision stands for

  /** A revision seen at two times, at any two paths, stands for the same content. */
  lemma RevisionIdentifies(s: Fs, p: Path, t: Fs, q: Path)
    requires Valid(s) && Valid(t) && Extends(s, t)
    requires p in s.tree && q in t.tree && s.rev[p] == t.rev[q]
    ensures s.tree[p] == t.tree[q]
  {
  }

  lemma ManifestAt(s: Fs, staged: Path, r: Path)
    requires Valid(s) && staged + r in s.tree
    ensures StageEntry(r, s.tree[staged + r].Directory?, s.rev[staged + r]) in Manifest(s, staged)
  {
    assert staged <= staged + r && (staged + r)[|staged|..] == r;
  }

  lemma ManifestEntry(s: Fs, staged: Path, e: StageEntry)
    requires Valid(s) && e in Manifest(s, staged)
    ensures staged + e.path in s.tree && s.rev[staged + e.path] == e.revision
  {
    var p :| p in s.tree && staged <= p && e == StageEntry(p[|staged|..], s.tree[p].Directory?, s.rev[p]);
    assert staged + p[|staged|..] == p;
  }

  /** An unchanged manifest means an unchanged subtree: the same paths and the same bytes. */
  lemma ManifestIdentifies(s: Fs, staged: Path, t: Fs, staged': Path, r: Path)
    requires Valid(s) && Valid(t) && Extends(s, t) && Manifest(s, staged) == Manifest(t, staged')
    ensures staged + r in s.tree <==> staged' + r in t.tree
    ensures staged + r in s.tree ==> s.tree[staged + r] == t.tree[staged' + r]
  {
    if staged + r in s.tree {
      ManifestAt(s, staged, r);
      ManifestEntry(t, staged', StageEntry(r, s.tree[staged + r].Directory?, s.rev[staged + r]));
    }
    if staged' + r in t.tree {
      ManifestAt(t, staged', r);
      ManifestEntry(s, staged, StageEntry(r, t.tree[staged' + r].Directory?, t.rev[staged' + r]));
    }
    if staged + r in s.tree { RevisionIdentifies(s, staged + r, t, staged' + r); }
  }

  // In the next lemmas t is any later state: RunSound gives Extends(s, t).

  /**
   A conditional publish that succeeds puts in place the node whose revision was
   captured; if that is a file, nothing else moves.
   */
  lemma PublishedAsCaptured(s: Fs, captured: Path, t: Fs, src: Path, dst: Path)
    requires Valid(s) && Valid(t) && Extends(s, t) && captured in s.tree
    requires PublishFile(t, src, dst, s.rev[captured]).result.Ok?
    ensures var after := PublishFile(t, src, dst, s.rev[captured]).fs;
            && dst in after.tree && after.tree[dst] == s.tree[captured] && after.rev[dst] == s.rev[captured]
            && src !in after.tree
            && (IsFile(s, captured) ==> after.tree == (t.tree - {src})[dst := s.tree[captured]])
  {
    MoveIsFresh(t, src, dst);
    MovedAt(t, src, dst, []);
    assert src + [] == src && dst + [] == dst;
    MovedElsewhere(t, src, dst, src);
    RevisionIdentifies(s, captured, t, src);
    if IsFile(s, captured) { FileMovesAlone(t, src, dst); }
  }

  lemma FileMovesAlone(s: Fs, src: Path, dst: Path)
    requires Valid(s) && MoveError(s, src, dst).None? && IsFile(s, src)
    ensures Moved(s, src, dst).tree == (s.tree - {src})[dst := s.tree[src]]
  {
    MoveIsFresh(s, src, dst);
    NothingBelowFile(s, src);
    var t, u := Moved(s, src, dst), (s.tree - {src})[dst := s.tree[src]];
    forall q: Path
      ensures q in t.tree <==> q in u
      ensures q in t.tree ==> t.tree[q] == u[q]
    {
      FileMovesAt(s, src, dst, q);
    }
  }

  lemma FileMovesAt(s: Fs, src: Path, dst: Path, q: Path)
    requires Clear(s, src, dst) && src in s.tree && dst != src && !(dst <= src)
    requires forall p :: p in s.tree && src <= p ==> p == src
    ensures var t, u := Moved(s, src, dst), (s.tree - {src})[dst := s.tree[src]];
            (q in t.tree <==> q in u) && (q in t.tree ==> t.tree[q] == u[q])
  {
    if dst <= q {
      Suffix(dst, q);
      var r := q[|dst|..];
      MovedAt(s, src, dst, r);
      assert src <= src + r && (src + r == src <==> r == []);
    } else {
      MovedElsewhere(s, src, dst, q);
    }
  }

  /** A file has nothing below it. */
  lemma NothingBelowFile(s: Fs, p: Path)
    requires IsTree(s) && IsFile(s, p)
    ensures forall q :: q in s.tree && p <= q ==> q == p
    ensures forall r: Path :: p + r in s.tree ==> r == []
  {
    forall q | q in s.tree && p <= q ensures q == p { PrefixInTree(s, q, p); }
    forall r: Path | p + r in s.tree ensures r == [] { assert p <= p + r; }
  }

  /** A directory published under its manifest is exactly the subtree the manifest was taken of. */
  lemma PublishedAsListed(s: Fs, listed: Path, t: Fs, src: Path, dst: Path, r: Path)
    requires Valid(s) && Valid(t) && Extends(s, t)
    requires PublishDirectory(t, src, dst, Manifest(s, listed)).result.Ok?
    ensures var after := PublishDirectory(t, src, dst, Manifest(s, listed)).fs;
            && (dst + r in after.tree <==> listed + r in s.tree)
            && (dst + r in after.tree ==> after.tree[dst + r] == s.tree[listed + r])
  {
    MoveIsFresh(t, src, dst);
    MovedAt(t, src, dst, r);
    ManifestIdentifies(s, listed, t, src, r);
  }

  /**
   A conditional delete that succeeds removes the node whose revision was seen with
   what is below it by then; if that node is a file, it is all that goes.
   */
  lemma DeletedAsSeen(s: Fs, seen: Path, t: Fs, path: Path)
    requires Valid(s) && Valid(t) && Extends(s, t) && seen in s.tree
    requires Delete(t, path, Some(s.rev[seen])).result.Ok?
    ensures var after := Delete(t, path, Some(s.rev[seen])).fs;
            && t.tree[path] == s.tree[seen]
            && (forall q :: q in after.tree <==> q in t.tree && !(path <= q))
            && (IsFile(s, seen) ==> after.tree == t.tree - {path} && after.rev == t.rev - {path})
  {
    RevisionIdentifies(s, seen, t, path);
    if IsFile(s, seen) {
      NothingBelowFile(t, path);
      assert path <= path;
    }
  }

  // ------------------------------------------- what it does not stand for

  predicate SameAt(s: Fs, p: Path, t: Fs, q: Path, r: Path) {
    (p + r in s.tree <==> q + r in t.tree) && (p + r in s.tree ==> s.tree[p + r] == t.tree[q + r])
  }

  /** Below p in s and below q in t are the same entries with the same bytes. */
  ghost predicate SameSubtree(s: Fs, p: Path, t: Fs, q: Path) {
    forall r: Path :: SameAt(s, p, t, q, r)
  }

  /** In the later state t, deleting the path under the revision seen succeeds. */
  ghost predicate DeletesLater(s: Fs, seen: Path, t: Fs, path: Path)
    requires Valid(s) && seen in s.tree
  {
    Valid(t) && Extends(s, t) && Delete(t, path, Some(s.rev[seen])).result.Ok?
  }

  ghost predicate PublishesLater(s: Fs, seen: Path, t: Fs, src: Path, dst: Path)
    requires Valid(s) && seen in s.tree
  {
    Valid(t) && Extends(s, t) && PublishFile(t, src, dst, s.rev[seen]).result.Ok?
  }

  lemma FileIsItsSubtree(s: Fs, p: Path, t: Fs, q: Path)
    requires Valid(s) && Valid(t) && IsFile(s, p) && IsFile(t, q) && s.tree[p] == t.tree[q]
    ensures SameSubtree(s, p, t, q)
  {
    NothingBelowFile(s, p);
    NothingBelowFile(t, q);
    forall r: Path ensures SameAt(s, p, t, q, r) { assert p + [] == p && q + [] == q; }
  }

  /** A name longer than every last component in use. */
  lemma {:induction false} FreshName(paths: set<Path>) returns (name: string)
    ensures forall p :: p in paths && p != [] ==> |p[|p| - 1]| < |name|
  {
    if paths == {} {
      name := "n";
    } else {
      var p :| p in paths;
      var rest := FreshName(paths - {p});
      var extra: string := if p == [] then "" else p[|p| - 1];
      name := rest + extra + "n";
      forall q | q in paths && q != [] ensures |q[|q| - 1]| < |name| {
        if q != p { assert q in paths - {p}; }
      }
    }
  }

  /** A directory gets a new entry, and keeps its revision: a later state that nobody has seen. */
  lemma ChildAppears(s: Fs, seen: Path) returns (name: string, t: Fs)
    requires Valid(s) && IsDir(s, seen)
    ensures t == Apply(s, ClaimOp(seen + [name])) && Valid(t) && Extends(s, t) && IsDir(t, seen)
      && t.rev[seen] == s.rev[seen]
    ensures seen + [name] !in s.tree && seen + [name] in t.tree
  {
    name := FreshName(s.tree.Keys);
    var child := seen + [name];
    assert child[|child| - 1] == name && Parent(child) == seen;
    t := Apply(s, ClaimOp(child));
    ApplyKeepsValid(s, ClaimOp(child));
  }

  /**
   A conditional delete takes away exactly the subtree that was seen, in every later
   state it succeeds in, if and only if what was seen is a file: a directory keeps
   its revision while entries come and go below it.
   */
  lemma DeleteTakesTheSubtreeSeen(s: Fs, seen: Path)
    requires Valid(s) && seen in s.tree && seen != []
    ensures (forall t: Fs, path: Path :: DeletesLater(s, seen, t, path) ==> SameSubtree(s, seen, t, path)) <==>
      IsFile(s, seen)
  {
    if IsFile(s, seen) {
      forall t: Fs, path: Path | DeletesLater(s, seen, t, path) ensures SameSubtree(s, seen, t, path) {
        RevisionIdentifies(s, seen, t, path);
        FileIsItsSubtree(s, seen, t, path);
      }
    } else {
      var name, t := ChildAppears(s, seen);
      assert DeletesLater(s, seen, t, seen);
      assert !SameAt(s, seen, t, seen, [name]);
    }
  }

  /** And so does a conditional publish with what it puts in place. */
  lemma PublishTakesTheSubtreeSeen(s: Fs, seen: Path)
    requires Valid(s) && seen in s.tree && seen != []
    ensures (forall t: Fs, src: Path, dst: Path :: PublishesLater(s, seen, t, src, dst) ==>
              SameSubtree(s, seen, PublishFile(t, src, dst, s.rev[seen]).fs, dst)) <==> IsFile(s, seen)
  {
    if IsFile(s, seen) {
      forall t: Fs, src: Path, dst: Path | PublishesLater(s, seen, t, src, dst)
        ensures SameSubtree(s, seen, PublishFile(t, src, dst, s.rev[seen]).fs, dst)
      {
        PublishedAsCaptured(s, seen, t, src, dst);
        MovedKeepsValid(t, src, dst);
        FileIsItsSubtree(s, seen, PublishFile(t, src, dst, s.rev[seen]).fs, dst);
      }
    } else {
      var t, dst := UnseenPublished(s, seen);
    }
  }

  lemma UnseenPublished(s: Fs, seen: Path) returns (t: Fs, dst: Path)
    requires Valid(s) && IsDir(s, seen) && seen != []
    ensures PublishesLater(s, seen, t, seen, dst)
    ensures !SameSubtree(s, seen, PublishFile(t, seen, dst, s.rev[seen]).fs, dst)
  {
    var name;
    name, t := ChildAppears(s, seen);
    var top := FreshName(t.tree.Keys);
    dst := [top];
    assert dst[|dst| - 1] == top && Parent(dst) == [];
    assert seen <= dst ==> seen == dst;
    assert PublishesLater(s, seen, t, seen, dst);
    MoveIsFresh(t, seen, dst);
    MovedAt(t, seen, dst, [name]);
    assert !SameAt(s, seen, PublishFile(t, seen, dst, s.rev[seen]).fs, dst, [name]);
  }

  /** A claim below a directory leaves what moves that directory as it was. */
  lemma ClaimKeepsMovable(s: Fs, dir: Path, x: string, dst: Path)
    requires Valid(s) && IsDir(s, dir) && dir + [x] !in s.tree && MoveError(s, dir, dst).None?
    ensures var t := ClaimDirectory(s, dir + [x]).fs;
            Valid(t) && IsDir(t, dir) && t.rev[dir] == s.rev[dir] && dir + [x] in t.tree && MoveError(t, dir, dst).None?
  {
    assert Parent(dir + [x]) == dir && dir <= dir + [x];
    ClaimKeepsValid(s, dir + [x]);
  }

  lemma TakenAlong(t: Fs, dir: Path, x: string, dst: Path)
    requires Valid(t) && IsDir(t, dir) && dir != [] && dir + [x] in t.tree && MoveError(t, dir, dst).None?
    ensures dir + [x] !in Delete(t, dir, Some(t.rev[dir])).fs.tree
    ensures dst + [x] in PublishFile(t, dir, dst, t.rev[dir]).fs.tree
  {
    assert dir <= dir + [x];
    MoveIsFresh(t, dir, dst);
    MovedAt(t, dir, dst, [x]);
  }

  /**
   Any directory that is seen may get an entry, and is then deleted or published
   with that entry under the revision that was seen.
   */
  lemma UnseenEntryIsTaken(worlds: seq<World>, dir: Path, x: string, dst: Path, last: FsOp)
    requires IsRun(worlds, [Plain(ClaimOp(dir + [x])), Plain(last)])
    requires Valid(worlds[0].fs) && IsDir(worlds[0].fs, dir) && dir != [] && dir + [x] !in worlds[0].fs.tree
    requires MoveError(worlds[0].fs, dir, dst).None?
    ensures dir + [x] in worlds[1].fs.tree
    ensures last == DeleteOp(dir, Some(worlds[0].fs.rev[dir])) ==> dir + [x] !in worlds[2].fs.tree
    ensures last == PublishFileOp(dir, dst, worlds[0].fs.rev[dir]) ==> dst + [x] in worlds[2].fs.tree
  {
    var ops := [Plain(ClaimOp(dir + [x])), Plain(last)];
    assert worlds[1] == Step(worlds[0], ops[0]) && worlds[2] == Step(worlds[1], ops[1]);
    ClaimKeepsMovable(worlds[0].fs, dir, x, dst);
    EntryTaken(worlds[1], worlds[2], dir, x, dst, last);
  }

  lemma EntryTaken(w: World, v: World, dir: Path, x: string, dst: Path, last: FsOp)
    requires Valid(w.fs) && IsDir(w.fs, dir) && dir != [] && dir + [x] in w.fs.tree && MoveError(w.fs, dir, dst).None?
    requires v == Step(w, Plain(last))
    ensures last == DeleteOp(dir, Some(w.fs.rev[dir])) ==> dir + [x] !in v.fs.tree
    ensures last == PublishFileOp(dir, dst, w.fs.rev[dir]) ==> dst + [x] in v.fs.tree
  {
    TakenAlong(w.fs, dir, x, dst);
  }

  /** It happens from the empty store on: claim ["d"], see it, then go on as above. */
  lemma UnseenEntryRun(w: World)
    requires w == Step(World(INIT, map[]), Plain(ClaimOp(["d"])))
    ensures Valid(w.fs) && IsDir(w.fs, ["d"]) && ["d"] + ["x"] !in w.fs.tree && MoveError(w.fs, ["d"], ["e"]).None?
  {
    InitValid();
    assert Parent(["d"]) == [] && Parent(["e"]) == [];
    ClaimKeepsValid(INIT, ["d"]);
    assert "d"[0] != "e"[0];
    assert ["d"][0] != ["e"][0];
  }

  /** A preview whose revision still matches reads the bytes the store holds now. */
  lemma PreviewIsCurrent(s: Fs, path: Path, data: Bytes, t: Fs)
    requires Valid(s) && Valid(t) && Extends(s, t)
    requires path in s.tree && s.tree[path] == File(data) && RevAt(t, path) == Some(s.rev[path])
    ensures path in t.tree && t.tree[path] == File(data)
  {
    RevisionIdentifies(s, path, t, path);
  }
}
