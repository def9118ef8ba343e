/** Layering of `CODEX_CONFIG` objects: the recursive merge, its meaning by paths, and
    the configuration that is handed to a spawned agent. */
module CodexConfig {
  import opened Wrappers

  datatype Json =
    | Null
    | Bool(b: bool)
    | Number(n: int)
    | Text(s: string)
    | Array(items: seq<Json>)
    | Object(members: Members)

  type Members = map<string, Json>

  type Path = seq<string>

  /** The merged members of two objects: the overlay wins, except that two objects
      under one key are merged in turn. */
  function Merge(base: Members, overlay: Members): Members
    decreases Object(overlay)
  {
    map k | k in base.Keys + overlay.Keys ::
      if k !in overlay then base[k]
      else if k in base && base[k].Object? && overlay[k].Object?
      then Object(Merge(base[k].members, overlay[k].members))
      else overlay[k]
  }

  /** Merge `overlay` into `base`, key by key, in whatever order the overlay yields them. */
  method DeepMerge(base: Members, overlay: Members) returns (merged: Members)
    ensures merged == Merge(base, overlay)
    decreases Object(overlay)
  {
    merged := base;
    var rest := overlay.Keys;
    while rest != {}
      invariant rest <= overlay.Keys
      invariant merged.Keys == base.Keys + (overlay.Keys - rest)
      invariant forall k :: k in merged && k in rest ==> k in base && merged[k] == base[k]
      invariant forall k :: k in base && k in rest ==> k in merged
      invariant forall k :: k in merged && k !in rest ==> merged[k] == Merge(base, overlay)[k]
      decreases rest
    {
      var k :| k in rest;
      if k in merged && merged[k].Object? && overlay[k].Object? {
        var inner := DeepMerge(merged[k].members, overlay[k].members);
        merged := merged[k := Object(inner)];
      } else {
        merged := merged[k := overlay[k]];
      }
      rest := rest - {k};
    }
  }

  // ----- Meaning by paths

  function At(j: Json, p: Path): Option<Json> {
    if p == [] then Some(j)
    else if j.Object? && p[0] in j.members then At(j.members[p[0]], p[1..])
    else None
  }

  predicate IsObjectAt(j: Json, p: Path) {
    At(j, p).Some? && At(j, p).value.Object?
  }

  /** Some non-empty prefix of the path is set by the overlay and not merged into an
      object of the base: from there on the overlay alone decides. */
  ghost predicate Owned(base: Json, overlay: Json, p: Path) {
    exists n :: 0 < n <= |p| && OwnedAt(base, overlay, p, n)
  }

  ghost predicate OwnedAt(base: Json, overlay: Json, p: Path, n: nat)
    requires n <= |p|
  {
    At(overlay, p[..n]).Some? && !(IsObjectAt(overlay, p[..n]) && IsObjectAt(base, p[..n]))
  }

  /** What the merge reads at every path, completely. */
  lemma {:induction false} PathSemantics(a: Members, b: Members, p: Path)
    ensures var m := Object(Merge(a, b));
            && (Owned(Object(a), Object(b), p) ==> At(m, p) == At(Object(b), p))
            && (!Owned(Object(a), Object(b), p) && At(Object(b), p).None? ==> At(m, p) == At(Object(a), p))
            && (!Owned(Object(a), Object(b), p) && At(Object(b), p).Some? ==>
                  && IsObjectAt(Object(a), p) && IsObjectAt(Object(b), p)
                  && At(m, p) == Some(Object(Merge(At(Object(a), p).value.members, At(Object(b), p).value.members))))
    decreases p
  {
    if p != [] {
      var k, rest := p[0], p[1..];
      assert p[..1] == [k];
      if k !in b {
        forall n | 0 < n <= |p| ensures !OwnedAt(Object(a), Object(b), p, n) {
          assert p[..n][0] == k;
        }
      } else if k in a && a[k].Object? && b[k].Object? {
        PathSemantics(a[k].members, b[k].members, rest);
        OwnedShifts(a, b, p);
      } else {
        assert [k][1..] == [] && At(Object(b), [k]) == Some(b[k]);
        assert k in a ==> At(Object(a), [k]) == Some(a[k]);
        assert OwnedAt(Object(a), Object(b), p, 1);
      }
    }
  }

  lemma AtShifts(j: Json, p: Path, n: nat)
    requires 0 < n <= |p| && j.Object? && p[0] in j.members
    ensures At(j, p[..n]) == At(j.members[p[0]], p[1..][..n - 1])
  {
    assert p[..n][1..] == p[1..][..n - 1];
  }

  lemma OwnedShifts(a: Members, b: Members, p: Path)
    requires p != [] && p[0] in a && p[0] in b && a[p[0]].Object? && b[p[0]].Object?
    ensures Owned(Object(a), Object(b), p) <==> Owned(a[p[0]], b[p[0]], p[1..])
  {
    var k, rest := p[0], p[1..];
    forall n | 0 < n <= |p| ensures OwnedAt(Object(a), Object(b), p, n) <==> OwnedAt(a[k], b[k], rest, n - 1) {
      AtShifts(Object(a), p, n);
      AtShifts(Object(b), p, n);
    }
    if Owned(a[k], b[k], rest) {
      var n :| 0 < n <= |rest| && OwnedAt(a[k], b[k], rest, n);
      assert OwnedAt(Object(a), Object(b), p, n + 1);
    }
    if Owned(Object(a), Object(b), p) {
      var n :| 0 < n <= |p| && OwnedAt(Object(a), Object(b), p, n);
      assert OwnedAt(a[k], b[k], rest, n - 1);
    }
  }

  /** A value that the overlay sets to anything but an object is read back. */
  lemma OverlayWins(a: Members, b: Members, p: Path, v: Json)
    requires At(Object(b), p) == Some(v) && !v.Object?
    ensures At(Object(Merge(a, b)), p) == Some(v)
  {
    assert p[..|p|] == p;
    assert OwnedAt(Object(a), Object(b), p, |p|);
    PathSemantics(a, b, p);
  }

  /** A base value survives where the overlay sets neither the path itself nor a
      non-object on the way to it. */
  lemma UnshadowedBaseSurvives(a: Members, b: Members, p: Path)
    requires At(Object(a), p).Some? && At(Object(b), p).None?
    requires forall n :: 0 < n < |p| && At(Object(b), p[..n]).Some? ==> IsObjectAt(Object(b), p[..n])
    ensures At(Object(Merge(a, b)), p) == At(Object(a), p)
  {
    assert p[..|p|] == p;
    forall n | 0 < n <= |p| ensures !OwnedAt(Object(a), Object(b), p, n) {
      if n < |p| {
        PrefixIsObject(Object(a), p, n);
      }
    }
    PathSemantics(a, b, p);
  }

  lemma {:induction false} PrefixIsObject(j: Json, p: Path, n: nat)
    requires At(j, p).Some? && n < |p|
    ensures IsObjectAt(j, p[..n])
    decreases n
  {
    if n > 0 {
      AtShifts(j, p, n);
      PrefixIsObject(j.members[p[0]], p[1..], n - 1);
    }
  }

  // ----- Laws

  lemma {:induction false} MergeIsIdempotent(m: Members)
    ensures Merge(m, m) == m
    decreases Object(m)
  {
    forall k | k in m && m[k].Object? ensures Merge(m[k].members, m[k].members) == m[k].members {
      MergeIsIdempotent(m[k].members);
    }
  }

  /** Merging the same overlay again changes nothing. */
  lemma {:induction false} MergeAbsorbs(a: Members, b: Members)
    ensures Merge(Merge(a, b), b) == Merge(a, b)
    decreases Object(b)
  {
    var m := Merge(a, b);
    forall k | k in m ensures Merge(m, b)[k] == m[k] {
      if k in b && b[k].Object? {
        if k in a && a[k].Object? {
          MergeAbsorbs(a[k].members, b[k].members);
        } else {
          MergeIsIdempotent(b[k].members);
        }
      }
    }
    assert Merge(m, b).Keys == m.Keys;
  }

  /** Every key of `a` is in `c`, at every level where both hold objects. */
  predicate Covers(c: Members, a: Members)
    decreases Object(a)
  {
    forall k :: k in a ==> k in c && (a[k].Object? && c[k].Object? ==> Covers(c[k].members, a[k].members))
  }

  lemma {:induction false} CoversMeansOverridden(a: Members, c: Members)
    ensures Covers(c, a) <==> Merge(a, c) == c
    decreases Object(a)
  {
    forall k | k in a && k in c && a[k].Object? && c[k].Object?
      ensures Covers(c[k].members, a[k].members) <==> Merge(a, c)[k] == c[k]
    {
      CoversMeansOverridden(a[k].members, c[k].members);
    }
    if Merge(a, c) == c {
      assert forall k :: k in a ==> k in Merge(a, c).Keys;
    }
    if Covers(c, a) {
      assert Merge(a, c).Keys == c.Keys;
    }
  }

  /** Where an object of `a` and an object of `c` meet a non-object of `b`, the object of
      `c` already covers that of `a`. */
  predicate ScalarsAreCovered(a: Members, b: Members, c: Members)
    decreases Object(a), 1
  {
    forall k :: k in a ==> Agreeable(a, b, c, k)
  }

  predicate Agreeable(a: Members, b: Members, c: Members, k: string)
    requires k in a
    decreases Object(a), 0
  {
    k in b && k in c && a[k].Object? && c[k].Object? ==>
      if b[k].Object? then ScalarsAreCovered(a[k].members, b[k].members, c[k].members)
      else Covers(c[k].members, a[k].members)
  }

  lemma AssociativeAt(a: Members, b: Members, c: Members, k: string)
    requires k in a
    ensures k in Merge(Merge(a, b), c) && k in Merge(a, Merge(b, c))
    ensures Merge(Merge(a, b), c)[k] == Merge(a, Merge(b, c))[k] <==> Agreeable(a, b, c, k)
    decreases Object(a), 0
  {
    if k in b && k in c && a[k].Object? && c[k].Object? {
      if b[k].Object? {
        AssociativeExactlyWhen(a[k].members, b[k].members, c[k].members);
      } else {
        CoversMeansOverridden(a[k].members, c[k].members);
      }
    }
  }

  /** The merge is associative exactly on such layers. */
  lemma {:induction false} AssociativeExactlyWhen(a: Members, b: Members, c: Members)
    ensures Merge(Merge(a, b), c) == Merge(a, Merge(b, c)) <==> ScalarsAreCovered(a, b, c)
    decreases Object(a), 1
  {
    var left, right := Merge(Merge(a, b), c), Merge(a, Merge(b, c));
    assert left.Keys == right.Keys;
    forall k | k in left ensures left[k] == right[k] <==> (k in a ==> Agreeable(a, b, c, k)) {
      if k in a {
        AssociativeAt(a, b, c, k);
      } else {
        NewKeysAssociate(a, b, c, k);
      }
    }
    assert left == right <==> forall k :: k in left ==> left[k] == right[k];
    assert forall k :: k in a ==> k in left;
  }

  lemma NewKeysAssociate(a: Members, b: Members, c: Members, k: string)
    requires k !in a && (k in b || k in c)
    ensures Merge(Merge(a, b), c)[k] == Merge(a, Merge(b, c))[k]
  {
  }

  /** An object, a scalar and an object under one key. */
  lemma NotAssociativeExample()
    ensures var a := map["k" := Object(map["x" := Null])];
            var b := map["k" := Bool(false)];
            var c := map["k" := Object(map[])];
            Merge(Merge(a, b), c) != Merge(a, Merge(b, c))
  {
    var a := map["k" := Object(map["x" := Null])];
    var b := map["k" := Bool(false)];
    var c := map["k" := Object(map[])];
    assert !Covers(c["k"].members, a["k"].members) by {
      assert "x" in a["k"].members;
    }
    AssociativeExactlyWhen(a, b, c);
  }

  // ----- Several layers

  /** Later layers over earlier ones. */
  function Layered(layers: seq<Members>): Members {
    if layers == [] then map[] else Merge(Layered(layers[..|layers| - 1]), layers[|layers| - 1])
  }

  /** The layer sets something other than an object at the path or on the way to it. */
  ghost predicate Cuts(layer: Json, p: Path) {
    exists n :: 0 < n <= |p| && CutsAt(layer, p, n)
  }

  predicate CutsAt(layer: Json, p: Path, n: nat)
    requires n <= |p|
  {
    At(layer, p[..n]).Some? && !At(layer, p[..n]).value.Object?
  }

  /** Layer `i` sets the path to `v`, and no later layer sets it or cuts it off. */
  ghost predicate HasLastWord(layers: seq<Json>, i: int, p: Path, v: Json) {
    && 0 <= i < |layers| && At(layers[i], p) == Some(v)
    && forall j :: i < j < |layers| ==> At(layers[j], p).None? && !Cuts(layers[j], p)
  }

  /** Layer `i` has an object at the path, and no later layer cuts it off. */
  ghost predicate KeepsObject(layers: seq<Json>, i: int, p: Path) {
    0 <= i < |layers| && IsObjectAt(layers[i], p) && forall j :: i < j < |layers| ==> !Cuts(layers[j], p)
  }

  /** What the layers together say about a path: a value other than an object is read
      exactly when the last layer to say anything about the path says so, and an object
      exactly when some layer has one that no later layer replaced. */
  ghost predicate Speaks(layers: seq<Json>, read: Option<Json>, p: Path) {
    && (forall v: Json :: !v.Object? ==> (read == Some(v) <==> exists i :: HasLastWord(layers, i, p, v)))
    && (IsObject(read) <==> exists i :: KeepsObject(layers, i, p))
  }

  predicate IsObject(v: Option<Json>) {
    v.Some? && v.value.Object?
  }

  /** How one more layer changes what is read. */
  lemma MergeSpeaks(a: Members, b: Members, p: Path)
    requires p != []
    ensures var read, was, own := At(Object(Merge(a, b)), p), At(Object(a), p), At(Object(b), p);
            && (forall v: Json :: !v.Object? ==>
                  (read == Some(v) <==> own == Some(v) || (was == Some(v) && own.None? && !Cuts(Object(b), p))))
            && (IsObject(read) <==> IsObject(own) || (IsObject(was) && !Cuts(Object(b), p)))
  {
    PathSemantics(a, b, p);
    assert p[..|p|] == p;
    var x, y := Object(a), Object(b);
    if Cuts(y, p) {
      var n :| 0 < n <= |p| && CutsAt(y, p, n);
      assert OwnedAt(x, y, p, n);
    }
    if At(y, p).Some? && !At(y, p).value.Object? {
      assert CutsAt(y, p, |p|);
    }
    if Owned(x, y, p) && !Cuts(y, p) {
      var n :| 0 < n <= |p| && OwnedAt(x, y, p, n);
      assert !CutsAt(y, p, n);
      if At(x, p).Some? && n < |p| {
        PrefixIsObject(x, p, n);
      }
    }
  }

  function Objects(layers: seq<Members>): (js: seq<Json>)
    ensures |js| == |layers|
  {
    seq(|layers|, i requires 0 <= i < |layers| => Object(layers[i]))
  }

  lemma HasLastWordStep(layers: seq<Json>, last: Json, p: Path, v: Json)
    ensures (exists i :: HasLastWord(layers + [last], i, p, v)) <==>
              At(last, p) == Some(v) || (At(last, p).None? && !Cuts(last, p) && exists i :: HasLastWord(layers, i, p, v))
  {
    var all := layers + [last];
    assert all[|layers|] == last;
    if At(last, p) == Some(v) {
      assert HasLastWord(all, |layers|, p, v);
    }
    if i :| HasLastWord(layers, i, p, v) {
      if At(last, p).None? && !Cuts(last, p) {
        assert HasLastWord(all, i, p, v);
      }
    }
    if i :| HasLastWord(all, i, p, v) {
      if i < |layers| {
        assert forall j :: 0 <= j < |layers| ==> layers[j] == all[j];
        assert HasLastWord(layers, i, p, v);
      }
    }
  }

  lemma KeepsObjectStep(layers: seq<Json>, last: Json, p: Path)
    ensures (exists i :: KeepsObject(layers + [last], i, p)) <==>
              IsObjectAt(last, p) || (!Cuts(last, p) && exists i :: KeepsObject(layers, i, p))
  {
    var all := layers + [last];
    assert all[|layers|] == last;
    if IsObjectAt(last, p) {
      assert KeepsObject(all, |layers|, p);
    }
    if i :| KeepsObject(layers, i, p) {
      if !Cuts(last, p) {
        assert KeepsObject(all, i, p);
      }
    }
    if i :| KeepsObject(all, i, p) {
      if i < |layers| {
        assert forall j :: 0 <= j < |layers| ==> layers[j] == all[j];
        assert KeepsObject(layers, i, p);
      }
    }
  }

  /** Layering is last word wins, at every path and for any number of layers. */
  lemma {:induction false} LastWordWins(layers: seq<Members>, p: Path)
    requires p != []
    ensures Speaks(Objects(layers), At(Object(Layered(layers)), p), p)
  {
    if layers != [] {
      var front, last := layers[..|layers| - 1], layers[|layers| - 1];
      LastWordWins(front, p);
      MergeSpeaks(Layered(front), last, p);
      assert Objects(layers) == Objects(front) + [Object(last)];
      KeepsObjectStep(Objects(front), Object(last), p);
      forall v: Json ensures !v.Object? ==>
          (At(Object(Layered(layers)), p) == Some(v) <==> exists i :: HasLastWord(Objects(layers), i, p, v))
      {
        HasLastWordStep(Objects(front), Object(last), p, v);
      }
    }
  }

  // ----- The configuration of a spawned agent

  const CODEX_CONFIG := "CODEX_CONFIG"
  const SANDBOX := "sandbox_workspace_write"
  const NETWORK := "network_access"

  datatype Source = Persona | Generated | Parent

  datatype BuildError = NotJson(source: Source) | NotObject(source: Source) | SandboxNotObject

  /** The raw `CODEX_CONFIG` values among the environment entries, in order. */
  function Entries(env: seq<(string, string)>): seq<string> {
    if env == [] then [] else
    var rest := Entries(env[..|env| - 1]);
    if env[|env| - 1].0 == CODEX_CONFIG then rest + [env[|env| - 1].1] else rest
  }

  /** The entries by position: strictly in the order of the environment, each the value
      of a `CODEX_CONFIG` pair, and no such pair left out. */
  lemma {:induction false} EntriesByPosition(env: seq<(string, string)>) returns (at: seq<nat>)
    ensures |at| == |Entries(env)| && forall k :: 0 <= k < |at| ==> at[k] < |env| && env[at[k]] == (CODEX_CONFIG, Entries(env)[k])
    ensures forall j, k :: 0 <= j < k < |at| ==> at[j] < at[k]
    ensures forall n :: 0 <= n < |env| && env[n].0 == CODEX_CONFIG ==> n in at
  {
    at := [];
    if env != [] {
      var last := |env| - 1;
      at := EntriesByPosition(env[..last]);
      if env[last].0 == CODEX_CONFIG {
        at := at + [last];
      }
    }
  }

  function ErrorFor(v: Option<Json>, source: Source): BuildError {
    if v.None? then NotJson(source) else NotObject(source)
  }

  /** The objects of the layers, when every layer parses to one. */
  function Parsed(raws: seq<string>, parse: string -> Option<Json>): (layers: seq<Members>)
    requires forall i :: 0 <= i < |raws| ==> IsObject(parse(raws[i]))
    ensures |layers| == |raws|
  {
    seq(|raws|, i requires 0 <= i < |raws| && IsObject(parse(raws[i])) => parse(raws[i]).value.members)
  }

  /** The sandbox object with network access forced on. */
  function Forced(base: Members): Members
    requires SANDBOX in base ==> base[SANDBOX].Object?
  {
    var sandbox := if SANDBOX in base then base[SANDBOX].members else map[];
    base[SANDBOX := Object(sandbox[NETWORK := Bool(true)])]
  }

  function SourceOf(i: nat, entries: nat): Source {
    if i >= entries then Parent else if i == 0 then Persona else Generated
  }

  /** Forcing reads as `true` at the forced leaf and leaves every other path of the
      layered configuration as it was, the sandbox object itself excepted. */
  lemma ForcedChangesOnlyNetworkAccess(base: Members, p: Path)
    requires SANDBOX in base ==> base[SANDBOX].Object?
    ensures At(Object(Forced(base)), [SANDBOX, NETWORK]) == Some(Bool(true))
    ensures !([SANDBOX, NETWORK] <= p) && p != [] && p != [SANDBOX] ==>
              At(Object(Forced(base)), p) == At(Object(base), p)
    ensures IsObjectAt(Object(Forced(base)), [SANDBOX])
  {
    var m := Forced(base);
    assert [SANDBOX, NETWORK][1..] == [NETWORK] && [NETWORK][1..] == [] && [SANDBOX][1..] == [];
    assert At(Object(m), [SANDBOX]) == Some(m[SANDBOX]);
    assert At(m[SANDBOX], [NETWORK]) == Some(Bool(true));
    if p != [] && p[0] == SANDBOX && p != [SANDBOX] && !([SANDBOX, NETWORK] <= p) {
      assert |p| > 1 && p[1..][0] == p[1] && p[1] != NETWORK;
      assert At(Object(m), p) == At(m[SANDBOX], p[1..]);
    }
  }

  /** Read one raw value as the layer of its source. */
  method ParseLayer(raw: string, source: Source, parse: string -> Option<Json>) returns (r: Result<Members, BuildError>)
    ensures r == if IsObject(parse(raw)) then Success(parse(raw).value.members) else Failure(ErrorFor(parse(raw), source))
  {
    match parse(raw) {
      case Some(Object(members)) => r := Success(members);
      case Some(_) => r := Failure(NotObject(source));
      case None => r := Failure(NotJson(source));
    }
  }

  method CollectEntries(env: seq<(string, string)>) returns (entries: seq<string>)
    ensures entries == Entries(env)
  {
    entries := [];
    for i := 0 to |env|
      invariant entries == Entries(env[..i])
    {
      assert env[..i + 1][..i] == env[..i];
      if env[i].0 == CODEX_CONFIG {
        entries := entries + [env[i].1];
      }
    }
    assert env[..|env|] == env;
  }

  /** The documents that the raw layers hold, each an object. */
  ghost predicate Holds(raws: seq<string>, parse: string -> Option<Json>, docs: seq<Json>) {
    |docs| == |raws| && forall i :: 0 <= i < |raws| ==> parse(raws[i]) == Some(docs[i]) && docs[i].Object?
  }

  /** The configuration that the documents, later ones over earlier ones, must give. */
  ghost predicate Configures(docs: seq<Json>, built: Members) {
    && IsObjectAt(Object(built), [SANDBOX])
    && At(Object(built), [SANDBOX, NETWORK]) == Some(Bool(true))
    && forall p :: Ordinary(p) ==> Speaks(docs, At(Object(built), p), p)
  }

  /** Neither the root nor the sandbox object nor the forced leaf or a path through it. */
  predicate Ordinary(p: Path) {
    p != [] && p != [SANDBOX] && !([SANDBOX, NETWORK] <= p)
  }

  lemma ForcedConfigures(layers: seq<Members>)
    requires SANDBOX in Layered(layers) ==> Layered(layers)[SANDBOX].Object?
    ensures Configures(Objects(layers), Forced(Layered(layers)))
  {
    var base := Layered(layers);
    ForcedChangesOnlyNetworkAccess(base, []);
    forall p | Ordinary(p) ensures Speaks(Objects(layers), At(Object(Forced(base)), p), p) {
      ForcedChangesOnlyNetworkAccess(base, p);
      LastWordWins(layers, p);
    }
  }

  /** The last word on the sandbox is not an object. */
  ghost predicate SandboxIsCut(docs: seq<Json>) {
    exists i, v: Json :: !v.Object? && HasLastWord(docs, i, [SANDBOX], v)
  }

  lemma SandboxIsCutExactlyWhen(layers: seq<Members>)
    ensures SandboxIsCut(Objects(layers)) <==> SANDBOX in Layered(layers) && !Layered(layers)[SANDBOX].Object?
  {
    var base := Layered(layers);
    assert [SANDBOX][1..] == [];
    assert At(Object(base), [SANDBOX]) == if SANDBOX in base then Some(base[SANDBOX]) else None;
    LastWordWins(layers, [SANDBOX]);
    if SandboxIsCut(Objects(layers)) {
      var i, v: Json :| !v.Object? && HasLastWord(Objects(layers), i, [SANDBOX], v);
      assert At(Object(base), [SANDBOX]) == Some(v);
    }
  }

  /** The last layer, which is the parent's when there is one, has the last word. */
  lemma LastLayerWins(docs: seq<Json>, built: Members, p: Path, v: Json)
    requires Configures(docs, built) && docs != [] && Ordinary(p)
    requires At(docs[|docs| - 1], p) == Some(v) && !v.Object?
    ensures At(Object(built), p) == Some(v)
  {
    assert HasLastWord(docs, |docs| - 1, p, v);
  }

  /** Nothing is read where no layer sets anything. */
  lemma UnsetPathIsAbsent(docs: seq<Json>, built: Members, p: Path)
    requires Configures(docs, built) && Ordinary(p) && forall i :: 0 <= i < |docs| ==> At(docs[i], p).None?
    ensures At(Object(built), p).None?
  {
    assert Speaks(docs, At(Object(built), p), p);
    if At(Object(built), p).Some? {
      var v := At(Object(built), p).value;
      assert v.Object? ==> exists i :: KeepsObject(docs, i, p);
      assert !v.Object? ==> exists i :: HasLastWord(docs, i, p, v);
    }
  }

  /** Build the configuration for a spawned agent. It fails on the first layer that is
      not a JSON object, entries before the parent, and then when the last word on the
      sandbox is not an object; otherwise the last word wins at every path, except that
      network access is on. */
  method BuildCodexConfigEnv(env: seq<(string, string)>, parent: Option<string>, generated: bool, parse: string -> Option<Json>)
    returns (r: Result<Option<Members>, BuildError>)
    ensures r == Success(None) <==> !generated || Entries(env) == []
    ensures r.Success? && r.value.Some? ==>
              var raws := Entries(env) + if parent.Some? then [parent.value] else [];
              exists docs :: Holds(raws, parse, docs) && !SandboxIsCut(docs) && Configures(docs, r.value.value)
    ensures r.Failure? && r.error.SandboxNotObject? ==>
              var raws := Entries(env) + if parent.Some? then [parent.value] else [];
              exists docs :: Holds(raws, parse, docs) && SandboxIsCut(docs)
    ensures r.Failure? && !r.error.SandboxNotObject? ==>
              var raws := Entries(env) + if parent.Some? then [parent.value] else [];
              exists i :: 0 <= i < |raws| && !IsObject(parse(raws[i]))
                && (forall j :: 0 <= j < i ==> IsObject(parse(raws[j])))
                && r.error.source == (if i == |Entries(env)| then Parent else if i == 0 then Persona else Generated)
                && (r.error.NotJson? <==> parse(raws[i]).None?)
  {
    if !generated {
      return Success(None);
    }
    var entries := CollectEntries(env);
    if entries == [] {
      return Success(None);
    }
    ghost var raws := entries + if parent.Some? then [parent.value] else [];
    var layers := ParseEntries(entries, parse);
    if layers.Failure? {
      assert forall i :: 0 <= i < |entries| ==> raws[i] == entries[i];
      return Failure(layers.error);
    }
    var base := MergeAll(layers.value);
    ghost var all := layers.value;
    if parent.Some? {
      var layer := ParseLayer(parent.value, Parent, parse);
      assert raws[|entries|] == parent.value;
      if layer.Failure? {
        assert forall i :: 0 <= i < |entries| ==> raws[i] == entries[i];
        return Failure(layer.error);
      }
      base := DeepMerge(base, layer.value);
      all := layers.value + [layer.value];
      assert all[..|all| - 1] == layers.value;
    }
    r := ForceNetworkAccess(base);
    assert Holds(raws, parse, Objects(all));
    SandboxIsCutExactlyWhen(all);
    if r.Success? {
      ForcedConfigures(all);
    }
  }

  method ParseEntries(entries: seq<string>, parse: string -> Option<Json>) returns (r: Result<seq<Members>, BuildError>)
    ensures r.Success? ==> (forall i :: 0 <= i < |entries| ==> IsObject(parse(entries[i]))) && r.value == Parsed(entries, parse)
    ensures r.Failure? ==>
              exists i :: 0 <= i < |entries| && !IsObject(parse(entries[i]))
                && (forall j :: 0 <= j < i ==> IsObject(parse(entries[j])))
                && r.error == ErrorFor(parse(entries[i]), SourceOf(i, |entries|))
  {
    var parsed: seq<Members> := [];
    for i := 0 to |entries|
      invariant forall j :: 0 <= j < i ==> IsObject(parse(entries[j]))
      invariant |parsed| == i && forall j :: 0 <= j < i ==> parsed[j] == parse(entries[j]).value.members
    {
      var layer := ParseLayer(entries[i], if i == 0 then Persona else Generated, parse);
      if layer.Failure? {
        return Failure(layer.error);
      }
      parsed := parsed + [layer.value];
    }
    r := Success(parsed);
  }

  method MergeAll(layers: seq<Members>) returns (base: Members)
    requires layers != []
    ensures base == Layered(layers)
  {
    base := layers[0];
    assert layers[..1][..0] == [];
    MergeIntoNothing(base);
    for i := 1 to |layers|
      invariant base == Layered(layers[..i])
    {
      assert layers[..i + 1][..i] == layers[..i];
      base := DeepMerge(base, layers[i]);
    }
    assert layers[..|layers|] == layers;
  }

  method ForceNetworkAccess(layered: Members) returns (r: Result<Option<Members>, BuildError>)
    ensures if SANDBOX in layered ==> layered[SANDBOX].Object?
            then r == Success(Some(Forced(layered))) else r == Failure(SandboxNotObject)
  {
    var base := layered;
    if SANDBOX !in base {
      base := base[SANDBOX := Object(map[])];
    }
    match base[SANDBOX] {
      case Object(sandbox) =>
        base := base[SANDBOX := Object(sandbox[NETWORK := Bool(true)])];
        assert base == Forced(layered);
        r := Success(Some(base));
      case _ =>
        r := Failure(SandboxNotObject);
    }
  }

  lemma MergeIntoNothing(m: Members)
    ensures Merge(map[], m) == m
  {
  }
}
