/**
 `_ListTokenCodec`: opaque pagination tokens bound to a scope, a page size and
 the content of the list.  SHA-256 and HMAC are parameters.  Nothing is assumed
 of them but their output length, except in the two theorems that name the few
 inputs on which they must not collide.
 */
module ListTokens {
  import opened Wrappers
  import opened Bytes
  import opened StableDigest
  import Utf8

  type Hash = h: Bytes | |h| == 32 witness seq(32, _ => 0)

  /** SHA-256, and HMAC-SHA-256 under the codec's own key. */
  datatype Hashes = Hashes(sha: Bytes -> Hash, mac: Bytes -> Hash)

  type Scope = seq<Option<Text>>

  /** Everything a token is bound to. */
  datatype Context = Context(scope: Scope, pageSize: int, stamps: seq<Value>) {
    /** The texts `_binding` fingerprints. */
    function Labels(): Scope {
      scope + [Some(Decimal(pageSize))]
    }

    predicate Valid() {
      ListWritable(stamps) && TextsWritable(Labels())
    }
  }

  const TOKEN: Bytes := [116, 111, 107, 101, 110]
  const OFFSET: Bytes := [111, 102, 102, 115, 101, 116]

  function Binding(h: Hashes, c: Context): (r: Bytes)
    requires c.Valid()
    ensures |r| == 64
  {
    h.sha(FingerprintStream(c.Labels())) + h.sha(CollectionStream(c.stamps))
  }

  function Signature(h: Hashes, binding: Bytes, masked: Bytes): (r: Bytes)
    ensures |r| == 24
  {
    h.mac(TOKEN + binding + masked)[..24]
  }

  function Mask(h: Hashes, binding: Bytes): (r: Bytes)
    ensures |r| == 8
  {
    h.mac(OFFSET + binding)[..8]
  }

  /** `_encode`. */
  function EncodeToken(h: Hashes, offset: int, binding: Bytes): (r: Text)
    requires 0 <= offset < WORD
    ensures |r| == 64
  {
    var masked := Xor(Word(offset), Mask(h, binding));
    Hex(masked + Signature(h, binding, masked))
  }

  predicate WellFormed(token: Text) {
    |token| == 64 && forall i :: 0 <= i < |token| ==> IsHexDigit(token[i])
  }

  /** `_offset_for`; None is the validation error. */
  function OffsetFor(h: Hashes, token: Text, binding: Bytes): (r: Option<int>)
    ensures r.Some? ==> 0 <= r.value < WORD
  {
    if !WellFormed(token) then None
    else
      var raw := FromHex(token);
      var masked := raw[..8];
      if raw[8..] != Signature(h, binding, masked) then None
      else Some(FromWord(Xor(masked, Mask(h, binding))))
  }

  lemma XorWordRoundTrip(n: int, mask: Bytes)
    requires 0 <= n < WORD && |mask| == 8
    ensures FromWord(Xor(Xor(Word(n), mask), mask)) == n
  {
    XorTwice(Word(n), mask);
  }

  /**
   With no assumption on the hashes: a token yields an offset exactly when it is
   the token the codec writes for that offset.
   */
  lemma TokenExact(h: Hashes, token: Text, binding: Bytes, offset: int)
    ensures OffsetFor(h, token, binding) == Some(offset)
       <==> 0 <= offset < WORD && token == EncodeToken(h, offset, binding)
  {
    var mask := Mask(h, binding);
    if 0 <= offset < WORD && token == EncodeToken(h, offset, binding) {
      var masked := Xor(Word(offset), mask);
      FromHexOfHex(masked + Signature(h, binding, masked));
      XorWordRoundTrip(offset, mask);
    }
    if OffsetFor(h, token, binding) == Some(offset) {
      var raw := FromHex(token);
      XorTwice(raw[..8], mask);
      HexOfFromHex(token);
      assert raw == raw[..8] + raw[8..];
    }
  }

  /** What is inside a token: the offset under a mask, and a signature of that with the binding. */
  lemma TokenLayout(h: Hashes, offset: int, binding: Bytes)
    requires 0 <= offset < WORD
    ensures var raw := FromHex(EncodeToken(h, offset, binding));
            && |raw| == 32 && raw[8..] == h.mac(TOKEN + binding + raw[..8])[..24]
            && Xor(raw[..8], h.mac(OFFSET + binding)[..8]) == Word(offset)
  {
    var mask := Mask(h, binding);
    var masked := Xor(Word(offset), mask);
    FromHexOfHex(masked + Signature(h, binding, masked));
    XorTwice(Word(offset), mask);
    var raw := masked + Signature(h, binding, masked);
    assert raw[..8] == masked && raw[8..] == Signature(h, binding, masked);
  }

  // ------------------------------------------------ what a token is bound to

  predicate SameContext(a: Context, b: Context) {
    a.scope == b.scope && a.pageSize == b.pageSize && CanonAll(a.stamps) == CanonAll(b.stamps)
  }

  predicate SignedAlike(h: Hashes, a: Context, b: Context, masked: Bytes)
    requires a.Valid() && b.Valid()
  {
    h.mac(TOKEN + Binding(h, a) + masked)[..24] == h.mac(TOKEN + Binding(h, b) + masked)[..24]
  }

  /** The hashes tell apart the inputs these two contexts give them. */
  ghost predicate CollisionFree(h: Hashes, a: Context, b: Context)
    requires a.Valid() && b.Valid()
  {
    && (h.sha(FingerprintStream(a.Labels())) == h.sha(FingerprintStream(b.Labels()))
        ==> FingerprintStream(a.Labels()) == FingerprintStream(b.Labels()))
    && (h.sha(CollectionStream(a.stamps)) == h.sha(CollectionStream(b.stamps))
        ==> CollectionStream(a.stamps) == CollectionStream(b.stamps))
    && (forall m: Bytes :: |m| == 8 && SignedAlike(h, a, b, m) ==> Binding(h, a) == Binding(h, b))
  }

  lemma LabelsIdentify(a: Context, b: Context)
    requires a.Labels() == b.Labels()
    ensures a.scope == b.scope && a.pageSize == b.pageSize
  {
    var n := |a.Labels()| - 1;
    assert a.Labels()[..n] == a.scope && b.Labels()[..n] == b.scope;
    assert a.Labels()[n] == b.Labels()[n];
    FromDecimalOfDecimal(a.pageSize);
    FromDecimalOfDecimal(b.pageSize);
  }

  lemma BindingIdentifies(h: Hashes, a: Context, b: Context)
    requires a.Valid() && b.Valid() && CollisionFree(h, a, b)
    ensures Binding(h, a) == Binding(h, b) <==> SameContext(a, b)
  {
    CollectionStreamIdentifiesList(a.stamps, b.stamps);
    if Binding(h, a) == Binding(h, b) {
      assert Binding(h, a)[..32] == Binding(h, b)[..32] && Binding(h, a)[32..] == Binding(h, b)[32..];
      FingerprintStreamInjective(a.Labels(), b.Labels());
      LabelsIdentify(a, b);
    }
  }

  /** A token is honoured in exactly the context it was issued for, at its own offset. */
  lemma TokenHonoured(h: Hashes, a: Context, b: Context, offset: int)
    requires a.Valid() && b.Valid() && CollisionFree(h, a, b)
    requires 0 <= offset < WORD
    ensures OffsetFor(h, EncodeToken(h, offset, Binding(h, a)), Binding(h, b))
         == if SameContext(a, b) then Some(offset) else None
  {
    BindingIdentifies(h, a, b);
    if SameContext(a, b) {
      TokenExact(h, EncodeToken(h, offset, Binding(h, a)), Binding(h, a), offset);
    } else {
      var masked := Xor(Word(offset), Mask(h, Binding(h, a)));
      assert !SignedAlike(h, a, b, masked);
      ForeignRefused(h, Binding(h, a), Binding(h, b), offset);
    }
  }

  lemma ForeignRefused(h: Hashes, x: Bytes, y: Bytes, offset: int)
    requires 0 <= offset < WORD
    requires var masked := Xor(Word(offset), Mask(h, x)); Signature(h, x, masked) != Signature(h, y, masked)
    ensures OffsetFor(h, EncodeToken(h, offset, x), y) == None
  {
    var masked := Xor(Word(offset), Mask(h, x));
    var raw := masked + Signature(h, x, masked);
    FromHexOfHex(raw);
    assert raw[..8] == masked && raw[8..] == Signature(h, x, masked);
  }

  // ------------------------------------------------------------------- paging

  datatype Page<+T> = Page(rows: seq<T>, next: Option<Text>)

  /** One list the server may hold: its rows, and what is fingerprinted for each. */
  datatype Version<T> = Version(rows: seq<T>, stamps: seq<Value>)

  /** The codec and the arguments a client repeats on every call. */
  datatype Client = Client(h: Hashes, scope: Scope, pageSize: int) {
    function Bound(stamps: seq<Value>): Context {
      Context(scope, pageSize, stamps)
    }

    /** The token for an offset; None where fingerprinting or `to_bytes` raises. */
    function Issue(stamps: seq<Value>, offset: int): Option<Text> {
      if Bound(stamps).Valid() && 0 <= offset < WORD
      then Some(EncodeToken(h, offset, Binding(h, Bound(stamps)))) else None
    }

    function Redeem(stamps: seq<Value>, token: Text): Option<int> {
      if Bound(stamps).Valid() then OffsetFor(h, token, Binding(h, Bound(stamps))) else None
    }
  }

  /** `rows[offset : offset + size]` for an offset inside the rows, or zero. */
  function Slice<T>(rows: seq<T>, offset: int, size: int): seq<T>
    requires 0 <= offset <= |rows| && size > 0
  {
    if offset + size < |rows| then rows[offset..offset + size] else rows[offset..]
  }

  lemma SliceThenRest<T>(rows: seq<T>, offset: int, size: int)
    requires 0 <= offset && size > 0 && offset + size < |rows|
    ensures Slice(rows, offset, size) + rows[offset + size..] == rows[offset..]
  {
  }

  /** The slicing half of `page`, over any way to redeem and issue tokens. */
  function Serve<T>(
    rows: seq<T>, size: int, redeem: Text -> Option<int>, issue: int -> Option<Text>, start: Option<Text>)
    : Option<Page<T>>
    requires size > 0
  {
    var offset := if start.None? then Some(0) else redeem(start.value);
    if offset.None? || offset.value < 0 || (start.Some? && offset.value >= |rows|) then None
    else
      var page, next := Slice(rows, offset.value, size), offset.value + size;
      if next >= |rows| then Some(Page(page, None))
      else if issue(next).None? then None
      else Some(Page(page, issue(next)))
  }

  /** `page`; None is any exception. */
  function PageOf<T>(c: Client, v: Version<T>, start: Option<Text>): Option<Page<T>> {
    if c.pageSize <= 0 || !ListWritable(v.stamps) then None
    else Serve(v.rows, c.pageSize, t => c.Redeem(v.stamps, t), o => c.Issue(v.stamps, o), start)
  }

  /** The next rows from an offset, as many as the page size and the list allow, and a token if any are left. */
  ghost predicate IsPage<T(!new)>(page: Page<T>, rows: seq<T>, from: int, size: int, issue: int -> Option<Text>)
    requires 0 <= from <= |rows|
  {
    && |page.rows| == (if |rows| - from < size then |rows| - from else size)
    && (forall i :: 0 <= i < |page.rows| ==> page.rows[i] == rows[from + i])
    && (if from + size < |rows| then page.next.Some? && page.next == issue(from + size) else page.next.None?)
  }

  lemma ServesPage<T(!new)>(
    rows: seq<T>, size: int, redeem: Text -> Option<int>, issue: int -> Option<Text>, start: Option<Text>, from: int)
    requires size > 0 && (if start.None? then from == 0 else redeem(start.value) == Some(from) && 0 <= from < |rows|)
    requires forall o :: 0 <= o < |rows| ==> issue(o).Some?
    ensures Serve(rows, size, redeem, issue, start).Some?
    ensures IsPage(Serve(rows, size, redeem, issue, start).value, rows, from, size, issue)
  {
  }

  /** Where a call starts: at the front, or where its token says. */
  function StartOf(c: Client, stamps: seq<Value>, start: Option<Text>): (r: Option<int>)
    ensures r.Some? ==> r.value >= 0
  {
    if start.None? then Some(0) else c.Redeem(stamps, start.value)
  }

  /** A call is answered by its page, or refused exactly for a token that is not this list's or leads past it. */
  lemma PageExactly<T(!new)>(c: Client, v: Version<T>, start: Option<Text>)
    requires c.pageSize > 0 && c.Bound(v.stamps).Valid() && |v.rows| < WORD
    ensures var r, from := PageOf(c, v, start), StartOf(c, v.stamps, start);
            && (r.Some? <==> start.None? || (from.Some? && from.value < |v.rows|))
            && (r.Some? ==> IsPage(r.value, v.rows, from.value, c.pageSize, o => c.Issue(v.stamps, o)))
  {
    var redeem, issue := (t: Text) => c.Redeem(v.stamps, t), (o: int) => c.Issue(v.stamps, o);
    var from := StartOf(c, v.stamps, start);
    if start.None? || (from.Some? && from.value < |v.rows|) {
      ServesPage(v.rows, c.pageSize, redeem, issue, start, from.value);
    }
  }

  // -------------------------------------------------------------- token walks

  datatype Walked<+T> = Finished(rows: seq<T>) | Refused | Unfinished

  function Prepend<T>(rows: seq<T>, walked: Walked<T>): Walked<T> {
    if walked.Finished? then Finished(rows + walked.rows) else walked
  }

  /** A client follows tokens; its i-th call is answered by `serve(i, token)`. */
  function Walk<T>(serve: (nat, Option<Text>) -> Option<Page<T>>, i: nat, n: nat, start: Option<Text>): Walked<T>
    decreases n - i
  {
    if i >= n then Unfinished
    else match serve(i, start)
      case None => Refused
      case Some(page) =>
        if page.next.None? then Finished(page.rows) else Prepend(page.rows, Walk(serve, i + 1, n, page.next))
  }

  /** The page a list of these rows serves at an offset, with its next token. */
  function Cut<T>(rows: seq<T>, size: int, issue: int -> Option<Text>, offset: int): Page<T>
    requires 0 <= offset <= |rows| && size > 0
  {
    Page(Slice(rows, offset, size), if offset + size >= |rows| then None else issue(offset + size))
  }

  /** `serve(i, start)` is a refusal, or the page of these rows at the offset. */
  ghost predicate Honest<T>(answer: Option<Page<T>>, rows: seq<T>, size: int, issue: int -> Option<Text>, offset: int)
    requires 0 <= offset < |rows|
  {
    answer.Some? ==>
      size > 0 && answer.value == Cut(rows, size, issue, offset)
        && (offset + size < |rows| ==> issue(offset + size).Some?)
  }

  ghost predicate Faithful<T>(
    serve: (nat, Option<Text>) -> Option<Page<T>>, n: nat, rows: seq<T>, size: int, issue: int -> Option<Text>)
  {
    forall i: nat, offset: int ::
      i < n && 0 <= offset < |rows| && issue(offset).Some? ==>
        Honest(serve(i, issue(offset)), rows, size, issue, offset)
  }

  lemma {:induction false} FaithfulWalk<T>(serve: (nat, Option<Text>) -> Option<Page<T>>, i: nat, n: nat,
    rows: seq<T>, size: int, issue: int -> Option<Text>, offset: int)
    requires Faithful(serve, n, rows, size, issue)
    requires 0 <= offset < |rows| && issue(offset).Some?
    ensures var walked := Walk(serve, i, n, issue(offset));
            walked.Finished? ==> walked.rows == rows[offset..]
    decreases n - i
  {
    if i < n {
      assert Honest(serve(i, issue(offset)), rows, size, issue, offset);
      var next := offset + size;
      if serve(i, issue(offset)).Some? && next < |rows| {
        FaithfulWalk(serve, i + 1, n, rows, size, issue, next);
        SliceThenRest(rows, offset, size);
      }
    }
  }

  /** What is fingerprinted determines what is listed. */
  ghost predicate Stamped<T(!new)>(v: Version<T>, view: Value -> T) {
    |v.rows| == |v.stamps| && forall i :: 0 <= i < |v.rows| ==> v.rows[i] == view(Canon(v.stamps[i]))
  }

  /** The hashes tell this list from the first one, as far as both can be written at all. */
  ghost predicate Apart(c: Client, first: seq<Value>, other: seq<Value>) {
    c.Bound(first).Valid() && c.Bound(other).Valid() ==> CollisionFree(c.h, c.Bound(first), c.Bound(other))
  }

  lemma SameListSameRows<T(!new)>(a: Version<T>, b: Version<T>, view: Value -> T)
    requires Stamped(a, view) && Stamped(b, view) && CanonAll(a.stamps) == CanonAll(b.stamps)
    ensures a.rows == b.rows
  {
    assert |a.rows| == |CanonAll(a.stamps)| == |b.rows|;
    forall i | 0 <= i < |a.rows| ensures a.rows[i] == b.rows[i] {
      assert CanonAll(a.stamps)[i] == CanonAll(b.stamps)[i];
    }
  }

  /** Another version redeems a token of the first only if it lists the same content. */
  lemma RedeemForeign(c: Client, first: seq<Value>, other: seq<Value>, offset: int)
    requires Apart(c, first, other)
    requires c.Issue(first, offset).Some? && c.Redeem(other, c.Issue(first, offset).value).Some?
    ensures c.Redeem(other, c.Issue(first, offset).value) == Some(offset)
    ensures CanonAll(first) == CanonAll(other)
    ensures forall o :: c.Issue(first, o) == c.Issue(other, o)
  {
    var a, b := c.Bound(first), c.Bound(other);
    TokenHonoured(c.h, a, b, offset);
    BindingIdentifies(c.h, a, b);
  }

  lemma ServeHonest<T>(rows: seq<T>, size: int, redeem: Text -> Option<int>, issue: int -> Option<Text>,
    first: int -> Option<Text>, offset: int)
    requires size > 0 && 0 <= offset < |rows| && first(offset).Some?
    requires redeem(first(offset).value) == Some(offset)
    requires forall o :: issue(o) == first(o)
    ensures Honest(Serve(rows, size, redeem, issue, first(offset)), rows, size, first, offset)
  {
  }

  lemma PageOfForeignToken<T(!new)>(c: Client, first: Version<T>, v: Version<T>, view: Value -> T, offset: int)
    requires Stamped(first, view) && Stamped(v, view) && Apart(c, first.stamps, v.stamps)
    requires 0 <= offset < |first.rows| && c.Issue(first.stamps, offset).Some?
    ensures Honest(PageOf(c, v, c.Issue(first.stamps, offset)), first.rows, c.pageSize, o => c.Issue(first.stamps, o),
      offset)
  {
    var token := c.Issue(first.stamps, offset);
    if PageOf(c, v, token).Some? {
      var redeem, issue := (t: Text) => c.Redeem(v.stamps, t), (o: int) => c.Issue(v.stamps, o);
      assert redeem(token.value).Some?;
      RedeemForeign(c, first.stamps, v.stamps, offset);
      SameListSameRows(first, v, view);
      ServeHonest(v.rows, c.pageSize, redeem, issue, o => c.Issue(first.stamps, o), offset);
    }
  }

  lemma {:induction false} FirstPageThenFaithful<T>(serve: (nat, Option<Text>) -> Option<Page<T>>, n: nat,
    rows: seq<T>, size: int, redeem: Text -> Option<int>, issue: int -> Option<Text>)
    requires n > 0 && (serve(0, None).Some? ==> size > 0 && serve(0, None) == Serve(rows, size, redeem, issue, None))
    requires Faithful(serve, n, rows, size, issue)
    ensures var walked := Walk(serve, 0, n, None);
            walked.Finished? ==> walked.rows == rows
  {
    if serve(0, None).Some? && size < |rows| {
      FaithfulWalk(serve, 1, n, rows, size, issue, size);
      assert rows == rows[0..size] + rows[size..];
    }
  }

  /**
   Snapshot consistency.  The i-th call meets the i-th version, so the list may
   change between any two calls; still, a walk that finishes returns exactly the
   rows of the list its first call met.
   */
  lemma WalkIsSnapshot<T(!new)>(c: Client, versions: nat -> Version<T>, n: nat, view: Value -> T)
    requires forall i: nat :: i < n ==> Stamped(versions(i), view) && Apart(c, versions(0).stamps, versions(i).stamps)
    ensures var walked := Walk((i: nat, start) => PageOf(c, versions(i), start), 0, n, None);
            walked.Finished? ==> walked.rows == versions(0).rows
  {
    if n > 0 {
      var first := versions(0);
      var serve := (i: nat, start) => PageOf(c, versions(i), start);
      var issue := (o: int) => c.Issue(first.stamps, o);
      forall i: nat, offset: int | i < n && 0 <= offset < |first.rows| && issue(offset).Some?
        ensures Honest(serve(i, issue(offset)), first.rows, c.pageSize, issue, offset)
      {
        PageOfForeignToken(c, first, versions(i), view, offset);
      }
      FirstPageThenFaithful(serve, n, first.rows, c.pageSize, t => c.Redeem(first.stamps, t), issue);
    }
  }

  lemma {:induction false} SteadyWalk<T>(serve: (nat, Option<Text>) -> Option<Page<T>>, i: nat, n: nat, rows: seq<T>,
    size: int, redeem: Text -> Option<int>, issue: int -> Option<Text>, offset: int)
    requires size > 0 && 0 <= offset < |rows| && i <= n && |rows| - offset <= n - i
    requires forall j: nat, start :: j < n ==> serve(j, start) == Serve(rows, size, redeem, issue, start)
    requires forall o :: 0 <= o < |rows| ==> issue(o).Some? && redeem(issue(o).value) == Some(o)
    ensures Walk(serve, i, n, if offset == 0 then None else issue(offset)) == Finished(rows[offset..])
    decreases n - i
  {
    var start, next := if offset == 0 then None else issue(offset), offset + size;
    assert serve(i, start) == Some(Cut(rows, size, issue, offset));
    if next < |rows| {
      SteadyWalk(serve, i + 1, n, rows, size, redeem, issue, next);
      SliceThenRest(rows, offset, size);
    }
  }

  /** And a walk over a list that does not change finishes with all of it. */
  lemma SteadyWalkFinishes<T>(c: Client, v: Version<T>, n: nat)
    requires c.pageSize > 0 && c.Bound(v.stamps).Valid() && |v.rows| < WORD
    requires |v.rows| <= n && 0 < n
    ensures Walk((_: nat, start) => PageOf(c, v, start), 0, n, None) == Finished(v.rows)
  {
    var redeem, issue := (t: Text) => c.Redeem(v.stamps, t), (o: int) => c.Issue(v.stamps, o);
    forall o | 0 <= o < |v.rows| ensures issue(o).Some? && redeem(issue(o).value) == Some(o) {
      TokenExact(c.h, issue(o).value, Binding(c.h, c.Bound(v.stamps)), o);
    }
    if v.rows == [] {
      assert Serve(v.rows, c.pageSize, redeem, issue, None) == Some(Page([], None));
    } else {
      SteadyWalk((_: nat, start) => PageOf(c, v, start), 0, n, v.rows, c.pageSize, redeem, issue, 0);
    }
  }
}
