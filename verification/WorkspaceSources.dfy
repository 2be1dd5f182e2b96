/** `_resolve_sources` and `_source`: the connections a saved workspace names. */
module WorkspaceSources {
  import opened Wrappers

  datatype Connection = Connection(name: string, region: Option<string>)

  datatype Reference = Reference(name: string, region: Option<string>)

  datatype Failure = Invalid | Unavailable

  datatype Resolution = Found(connection: Connection) | NotFound | Broken

  predicate IsFor(c: Connection, r: Reference) {
    c.name == r.name && c.region == r.region
  }

  /** The one connection a reference names. */
  ghost function Source(sources: seq<Connection>, r: Reference): (s: Option<Connection>)
    ensures s.Some? ==> IsFor(s.value, r)
  {
    if exists i :: Only(sources, r, i) then
      var i :| Only(sources, r, i);
      Some(sources[i])
    else None
  }

  ghost predicate Only(sources: seq<Connection>, r: Reference, i: int) {
    0 <= i < |sources| && IsFor(sources[i], r) && forall j :: 0 <= j < |sources| && IsFor(sources[j], r) ==> j == i
  }

  /** `_source`: nothing for a target without a source, else the one connection it names. */
  ghost function SourceOf(sources: seq<Connection>, name: Option<string>, region: Option<string>)
    : Result<Option<Connection>, Failure>
  {
    if name.None? && region.None? then Ok(None)
    else if name.Some? && Source(sources, Reference(name.value, region)).Some?
    then Ok(Source(sources, Reference(name.value, region)))
    else Err(Invalid)
  }

  lemma OneMatch(matches: seq<int>, i: int)
    requires i in matches && forall k :: 0 <= k < |matches| ==> matches[k] == i
    requires forall k, l :: 0 <= k < l < |matches| ==> matches[k] < matches[l]
    ensures |matches| == 1
  {
    var first, last := matches[0], matches[|matches| - 1];
    assert first == i && last == i;
  }

  /** The list comprehension of `_source`, and its test for one match. */
  method FindSource(sources: seq<Connection>, name: Option<string>, region: Option<string>)
    returns (s: Result<Option<Connection>, Failure>)
    ensures s == SourceOf(sources, name, region)
  {
    if name.None? && region.None? { return Ok(None); }
    if name.None? { return Err(Invalid); }
    var r := Reference(name.value, region);
    var matches: seq<int> := [];
    for i := 0 to |sources|
      invariant forall k :: 0 <= k < |matches| ==> 0 <= matches[k] < i && IsFor(sources[matches[k]], r)
      invariant forall j :: 0 <= j < i && IsFor(sources[j], r) ==> j in matches
      invariant forall k, l :: 0 <= k < l < |matches| ==> matches[k] < matches[l]
    {
      if IsFor(sources[i], r) { matches := matches + [i]; }
    }
    forall i | Only(sources, r, i) ensures |matches| == 1 {
      assert i in matches;
      OneMatch(matches, i);
    }
    if |matches| != 1 { return Err(Invalid); }
    assert Only(sources, r, matches[0]);
    return Ok(Some(sources[matches[0]]));
  }

  /** Every reference can be resolved, and to the region it was saved with. */
  predicate Resolvable(references: seq<Reference>, resolve: string -> Resolution) {
    forall i :: 0 <= i < |references| ==>
      resolve(references[i].name).Found? && IsFor(resolve(references[i].name).connection, references[i])
  }

  ghost predicate Distinct(sources: seq<Connection>) {
    forall i, j :: 0 <= i < j < |sources| ==> sources[i].name != sources[j].name
  }

  predicate HasSource(sources: seq<Connection>, r: Reference) {
    exists i :: 0 <= i < |sources| && IsFor(sources[i], r)
  }

  predicate IsWanted(c: Connection, references: seq<Reference>, n: nat)
    requires n <= |references|
  {
    exists k :: 0 <= k < n && IsFor(c, references[k])
  }

  /** The first reference that cannot be resolved, and what is said of it. */
  ghost predicate Unresolved(references: seq<Reference>, k: nat, resolve: string -> Resolution, e: Failure) {
    && k < |references| && Resolvable(references[..k], resolve) && !Resolvable(references[..k + 1], resolve)
    && e == if resolve(references[k].name).Broken? then Unavailable else Invalid
  }

  /** The connections already selected for the first n references. */
  ghost predicate Selected(sources: seq<Connection>, references: seq<Reference>, n: nat, resolve: string -> Resolution)
    requires n <= |references|
  {
    && Distinct(sources)
    && (forall i :: 0 <= i < |sources| ==> resolve(sources[i].name) == Found(sources[i]))
    && (forall i :: 0 <= i < |sources| ==> IsWanted(sources[i], references, n))
    && (forall k :: 0 <= k < n ==> HasSource(sources, references[k]))
  }

  /**
   `_resolve_sources`: each name is resolved once.  It succeeds exactly if every
   reference resolves to its own name and saved region.
   */
  method ResolveSources(references: seq<Reference>, resolve: string -> Resolution)
    returns (r: Result<seq<Connection>, Failure>)
    ensures r.Ok? <==> Resolvable(references, resolve)
    ensures r.Ok? ==> Selected(r.value, references, |references|, resolve)
    ensures r.Err? ==> exists k :: 0 <= k < |references| && Unresolved(references, k, resolve, r.error)
  {
    var selected: seq<Connection> := [];
    for k := 0 to |references|
      invariant Selected(selected, references, k, resolve)
      invariant Resolvable(references[..k], resolve)
    {
      var reference := references[k];
      FailsHere(references, k, resolve);
      var known := Lookup(selected, reference.name);
      if known.None? {
        var found := resolve(reference.name);
        if found.NotFound? { return Err(Invalid); }
        if found.Broken? { return Err(Unavailable); }
        if !IsFor(found.connection, reference) { return Err(Invalid); }
        SelectOne(selected, references, k, resolve, found.connection);
        selected := selected + [found.connection];
      } else if !IsFor(known.value, reference) {
        assert resolve(known.value.name) == Found(known.value);
        return Err(Invalid);
      }
      assert references[..k + 1] == references[..k] + [reference];
    }
    assert references[..|references|] == references;
    return Ok(selected);
  }

  lemma FailsHere(references: seq<Reference>, k: nat, resolve: string -> Resolution)
    requires k < |references| && Resolvable(references[..k], resolve)
    ensures var found := resolve(references[k].name);
            (found.Found? && IsFor(found.connection, references[k]))
            || Unresolved(references, k, resolve, if found.Broken? then Unavailable else Invalid)
  {
    assert references[..k + 1][k] == references[k];
  }

  lemma SelectOne(sources: seq<Connection>, references: seq<Reference>, k: nat, resolve: string -> Resolution,
    c: Connection)
    requires k < |references| && Selected(sources, references, k, resolve) && resolve(c.name) == Found(c)
    requires IsFor(c, references[k]) && forall i :: 0 <= i < |sources| ==> sources[i].name != c.name
    ensures Selected(sources + [c], references, k + 1, resolve)
  {
    var t := sources + [c];
    forall j | 0 <= j < k + 1 ensures HasSource(t, references[j]) {
      if j < k {
        assert HasSource(sources, references[j]);
        var i :| 0 <= i < |sources| && IsFor(sources[i], references[j]);
        assert IsFor(t[i], references[j]);
      } else {
        assert IsFor(t[|sources|], references[j]);
      }
    }
  }

  method Lookup(sources: seq<Connection>, name: string) returns (c: Option<Connection>)
    requires Distinct(sources)
    ensures c.Some? ==> c.value in sources && c.value.name == name
    ensures c.None? ==> forall i :: 0 <= i < |sources| ==> sources[i].name != name
  {
    for i := 0 to |sources|
      invariant forall j :: 0 <= j < i ==> sources[j].name != name
    {
      if sources[i].name == name { return Some(sources[i]); }
    }
    return None;
  }

  /** Whatever was resolved is found again by each of its references, and is the current connection. */
  lemma ResolvedIsFound(sources: seq<Connection>, references: seq<Reference>, resolve: string -> Resolution, k: nat)
    requires Selected(sources, references, |references|, resolve) && k < |references|
    ensures Source(sources, references[k]).Some?
    ensures SourceOf(sources, Some(references[k].name), references[k].region) == Ok(Source(sources, references[k]))
    ensures resolve(references[k].name) == Found(Source(sources, references[k]).value)
  {
    assert HasSource(sources, references[k]);
    var i :| 0 <= i < |sources| && IsFor(sources[i], references[k]);
    assert Only(sources, references[k], i);
  }
}
