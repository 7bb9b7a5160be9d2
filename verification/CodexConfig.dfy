/** The recursive merge of configuration objects and the configuration handed to a
  spawned Codex agent. Parsing of the texts is a parameter; the value built is kept
  as JSON instead of being printed. */
module CodexConfig {
  import opened Wrappers
  import opened JsonValues

  // ---------------------------------------------------------------- merge

  /** Two objects merge key by key; otherwise the overlay replaces the base. */
  function Merge(base: Json, overlay: Json): Json
    decreases overlay
  {
    if base.Obj? && overlay.Obj? then
      Obj(map k | k in base.fields.Keys + overlay.fields.Keys ::
            if k !in overlay.fields then base.fields[k]
            else if k in base.fields then Merge(base.fields[k], overlay.fields[k])
            else overlay.fields[k])
    else overlay
  }

  /** The merge while the overlay's keys in `todo` are still to be visited. */
  ghost function PartlyMerged(base: map<string, Json>, overlay: map<string, Json>, todo: set<string>): map<string, Json> {
    map k | k in base.Keys + (overlay.Keys - todo) ::
      if k !in overlay || k in todo then base[k]
      else if k in base then Merge(base[k], overlay[k])
      else overlay[k]
  }

  lemma VisitKey(base: map<string, Json>, overlay: map<string, Json>, todo: set<string>, k: string)
    requires k in todo && todo <= overlay.Keys
    ensures PartlyMerged(base, overlay, todo - {k})
              == PartlyMerged(base, overlay, todo)[k := if k in base then Merge(base[k], overlay[k]) else overlay[k]]
    ensures k in PartlyMerged(base, overlay, todo) <==> k in base
    ensures k in base ==> PartlyMerged(base, overlay, todo)[k] == base[k]
  {
  }

  lemma MergeEnds(base: map<string, Json>, overlay: map<string, Json>)
    ensures PartlyMerged(base, overlay, overlay.Keys) == base
    ensures Obj(PartlyMerged(base, overlay, {})) == Merge(Obj(base), Obj(overlay))
  {
    assert PartlyMerged(base, overlay, {}) == Merge(Obj(base), Obj(overlay)).fields;
  }

  /** `deep_merge`: the keys of the overlay are visited in no particular order. */
  method DeepMerge(base: map<string, Json>, overlay: map<string, Json>) returns (merged: map<string, Json>)
    ensures Obj(merged) == Merge(Obj(base), Obj(overlay))
    decreases Obj(overlay)
  {
    hide PartlyMerged;
    merged := base;
    var todo := overlay.Keys;
    MergeEnds(base, overlay);
    while todo != {}
      invariant todo <= overlay.Keys
      invariant merged == PartlyMerged(base, overlay, todo)
      decreases |todo|
    {
      var k :| k in todo;
      VisitKey(base, overlay, todo, k);
      assert overlay[k] < Obj(overlay);
      if k in merged && merged[k].Obj? && overlay[k].Obj? {
        var inner := DeepMerge(merged[k].fields, overlay[k].fields);
        merged := merged[k := Obj(inner)];
      } else {
        merged := merged[k := overlay[k]];
      }
      todo := todo - {k};
    }
  }

  function Lookup(j: Json, path: seq<string>): Option<Json>
    decreases |path|
  {
    if path == [] then Some(j)
    else if j.Get(path[0]).None? then None
    else Lookup(j.Get(path[0]).value, path[1..])
  }

  /** Following the path, `j` is an object as long as it binds the keys: it says
    nothing against what another value holds there. */
  predicate Permits(j: Json, path: seq<string>)
    decreases |path|
  {
    path == [] || (j.Obj? && (path[0] in j.fields ==> Permits(j.fields[path[0]], path[1..])))
  }

  /** What a merge holds at any path, from what its two sides hold there. */
  lemma {:induction false} MergeLookup(a: Json, b: Json, path: seq<string>)
    ensures Lookup(Merge(a, b), path) ==
              if Lookup(b, path).Some? then
                Some(if Lookup(a, path).Some? then Merge(Lookup(a, path).value, Lookup(b, path).value)
                     else Lookup(b, path).value)
              else if Permits(b, path) then Lookup(a, path)
              else None
    decreases |path|
  {
    if path == [] {
    } else if a.Obj? && b.Obj? {
      var k := path[0];
      if k in a.fields && k in b.fields {
        MergeLookup(a.fields[k], b.fields[k], path[1..]);
      } else if k in b.fields {
        LookupPermits(b.fields[k], path[1..]);
      }
    } else if b.Obj? && path[0] in b.fields {
      LookupPermits(b.fields[path[0]], path[1..]);
    }
  }

  lemma {:induction false} LookupPermits(b: Json, path: seq<string>)
    ensures Lookup(b, path).Some? ==> Permits(b, path)
    decreases |path|
  {
    if path != [] && b.Get(path[0]).Some? {
      LookupPermits(b.Get(path[0]).value, path[1..]);
    }
  }

  lemma {:induction false} MergeSelf(a: Json)
    ensures Merge(a, a) == a
  {
    if a.Obj? {
      forall k | k in a.fields ensures Merge(a.fields[k], a.fields[k]) == a.fields[k] {
        MergeSelf(a.fields[k]);
      }
      assert Merge(a, a).fields == a.fields;
    }
  }

  /** Applying the same overlay again changes nothing. */
  lemma {:induction false} MergeAbsorbs(a: Json, b: Json)
    ensures Merge(Merge(a, b), b) == Merge(a, b)
    decreases b
  {
    if a.Obj? && b.Obj? {
      forall k | k in b.fields
        ensures Merge(Merge(a, b).fields[k], b.fields[k]) == Merge(a, b).fields[k]
      {
        if k in a.fields {
          MergeAbsorbs(a.fields[k], b.fields[k]);
        } else {
          MergeSelf(b.fields[k]);
        }
      }
      assert Merge(Merge(a, b), b).fields == Merge(a, b).fields;
    } else {
      MergeSelf(b);
    }
  }

  /** Every key of `a` is bound in `c`, down through objects met on both sides. */
  predicate Covered(a: Json, c: Json)
    decreases a
  {
    a.Obj? && c.Obj? ==>
      forall k | k in a.fields :: k in c.fields && Covered(a.fields[k], c.fields[k])
  }

  lemma {:induction false} CoveredAddsNothing(a: Json, c: Json)
    ensures Merge(a, c) == c <==> Covered(a, c)
    decreases a
  {
    if a.Obj? && c.Obj? {
      forall k | k in a.fields && k in c.fields
        ensures Merge(a.fields[k], c.fields[k]) == c.fields[k] <==> Covered(a.fields[k], c.fields[k])
      {
        CoveredAddsNothing(a.fields[k], c.fields[k]);
      }
      if Covered(a, c) {
        assert Merge(a, c).fields == c.fields;
      }
    }
  }

  /** Nowhere does an object of `a` meet an object of `c` across something else in
    `b`, unless that object of `a` has no key to add. */
  predicate NoSandwich(a: Json, b: Json, c: Json)
    decreases a
  {
    && (a.Obj? && !b.Obj? && c.Obj? ==> Covered(a, c))
    && (a.Obj? && b.Obj? && c.Obj? ==>
          forall k | k in a.fields && k in b.fields && k in c.fields ::
            NoSandwich(a.fields[k], b.fields[k], c.fields[k]))
  }

  /** Merging is associative exactly on triples without such a sandwich. */
  lemma {:induction false} MergeAssociativeIff(a: Json, b: Json, c: Json)
    ensures Merge(Merge(a, b), c) == Merge(a, Merge(b, c)) <==> NoSandwich(a, b, c)
    decreases a
  {
    CoveredAddsNothing(a, c);
    if a.Obj? && b.Obj? && c.Obj? {
      var left, right := Merge(Merge(a, b), c).fields, Merge(a, Merge(b, c)).fields;
      assert left.Keys == right.Keys;
      forall k | k in left
        ensures left[k] == right[k] <==>
                  (k in a.fields && k in b.fields && k in c.fields ==> NoSandwich(a.fields[k], b.fields[k], c.fields[k]))
      {
        if k in a.fields && k in b.fields && k in c.fields {
          MergeAssociativeIff(a.fields[k], b.fields[k], c.fields[k]);
        }
      }
      assert left == right <==> forall k | k in left :: left[k] == right[k];
    }
  }

  /** The smallest sandwich of layers: the middle one wipes what the outer ones hold. */
  lemma SandwichExists()
    ensures var a := Obj(map["x" := Obj(map["k" := Null])]);
            var b := Obj(map["x" := Null]);
            var c := Obj(map["x" := Obj(map[])]);
            && Merge(Merge(a, b), c) == c
            && Merge(a, Merge(b, c)) == a
  {
    var outer, empty := Obj(map["k" := Null]), Obj(map[]);
    var a, b, c := Obj(map["x" := outer]), Obj(map["x" := Null]), Obj(map["x" := empty]);
    assert Merge(outer, empty).fields == outer.fields;
    assert Merge(outer, Null) == Null && Merge(Null, empty) == empty;
    hide Merge;
    MergeAtKey("x", outer, Null);
    MergeAtKey("x", Null, empty);
    MergeAtKey("x", outer, empty);
  }

  lemma MergeAtKey(key: string, a: Json, b: Json)
    ensures Merge(Obj(map[key := a]), Obj(map[key := b])) == Obj(map[key := Merge(a, b)])
  {
    assert Merge(Obj(map[key := a]), Obj(map[key := b])).fields == map[key := Merge(a, b)];
  }

  // ---------------------------------------------------------------- layers

  function MergeAll(layers: seq<Json>): Json
    requires layers != []
  {
    if |layers| == 1 then layers[0]
    else Merge(MergeAll(layers[..|layers| - 1]), layers[|layers| - 1])
  }

  /** Layer `i` holds `v` at the path, and every later one says nothing there. */
  predicate SpeaksLast(layers: seq<Json>, path: seq<string>, i: int, v: Json) {
    && 0 <= i < |layers| && Lookup(layers[i], path) == Some(v)
    && forall j | i < j < |layers| :: Lookup(layers[j], path).None? && Permits(layers[j], path)
  }

  lemma SpeakersInPrefix(layers: seq<Json>, path: seq<string>, i: int, v: Json)
    requires layers != []
    ensures var n := |layers| - 1;
            SpeaksLast(layers, path, i, v) <==>
            if i == n then Lookup(layers[n], path) == Some(v)
            else SpeaksLast(layers[..n], path, i, v) && Lookup(layers[n], path).None? && Permits(layers[n], path)
  {
    hide Lookup, Permits;
    var n := |layers| - 1;
    if SpeaksLast(layers, path, i, v) && i != n {
      forall j | i < j < n ensures Lookup(layers[..n][j], path).None? && Permits(layers[..n][j], path) {
        assert layers[..n][j] == layers[j];
      }
    } else if i != n && SpeaksLast(layers[..n], path, i, v) && Lookup(layers[n], path).None? && Permits(layers[n], path) {
      forall j | i < j <= n ensures Lookup(layers[j], path).None? && Permits(layers[j], path) {
        assert j < n ==> layers[..n][j] == layers[j];
      }
    }
  }

  lemma MergedLeaf(a: Json, b: Json, path: seq<string>, v: Json)
    requires !v.Obj?
    ensures Lookup(Merge(a, b), path) == Some(v) <==>
            Lookup(b, path) == Some(v) || (Lookup(a, path) == Some(v) && Lookup(b, path).None? && Permits(b, path))
  {
    MergeLookup(a, b, path);
    hide Lookup, Permits;
  }

  /** The merged layers hold a leaf at a path exactly if the last layer to say anything
    there holds it. */
  lemma {:induction false} LastSpeakerWins(layers: seq<Json>, path: seq<string>, v: Json)
    requires layers != [] && !v.Obj?
    ensures Lookup(MergeAll(layers), path) == Some(v) <==> exists i :: SpeaksLast(layers, path, i, v)
    decreases |layers|
  {
    var n := |layers| - 1;
    forall i ensures SpeaksLast(layers, path, i, v) <==>
                     if i == n then Lookup(layers[n], path) == Some(v)
                     else SpeaksLast(layers[..n], path, i, v) && Lookup(layers[n], path).None? && Permits(layers[n], path) {
      SpeakersInPrefix(layers, path, i, v);
    }
    hide SpeaksLast, Lookup, Permits, Merge;
    if n > 0 {
      MergedLeaf(MergeAll(layers[..n]), layers[n], path, v);
      LastSpeakerWins(layers[..n], path, v);
      if Lookup(layers[n], path) == Some(v) {
        assert SpeaksLast(layers, path, n, v);
      }
    } else {
      NobodyBefore(layers[..n], path, v);
      if Lookup(layers[0], path) == Some(v) {
        assert SpeaksLast(layers, path, 0, v);
      }
    }
  }

  lemma NobodyBefore(layers: seq<Json>, path: seq<string>, v: Json)
    requires layers == []
    ensures forall i :: !SpeaksLast(layers, path, i, v)
  {
  }

  // ---------------------------------------------------------------- CODEX_CONFIG

  datatype Layer = Persona | Generated | Parent

  datatype ConfigError = NotJson(layer: Layer) | NotAnObject(layer: Layer) | SandboxNotAnObject(found: Json)

  const CODEX_CONFIG := "CODEX_CONFIG"
  const SANDBOX := "sandbox_workspace_write"
  const NETWORK := "network_access"

  function ParseLayer(raw: string, layer: Layer, parse: string -> Option<Json>): Result<Json, ConfigError> {
    if parse(raw).None? then Err(NotJson(layer))
    else if !parse(raw).value.Obj? then Err(NotAnObject(layer))
    else Ok(parse(raw).value)
  }

  function LayerAt(i: nat): Layer {
    if i == 0 then Persona else Generated
  }

  function Entries(env: seq<(string, string)>): seq<string> {
    if env == [] then []
    else Entries(env[..|env| - 1]) + if env[|env| - 1].0 == CODEX_CONFIG then [env[|env| - 1].1] else []
  }

  function ParseLayers(raws: seq<string>, parse: string -> Option<Json>): Result<seq<Json>, ConfigError> {
    if raws == [] then Ok([])
    else
      var n := |raws| - 1;
      var before := ParseLayers(raws[..n], parse);
      if before.Err? then before
      else
        var last := ParseLayer(raws[n], LayerAt(n), parse);
        if last.Err? then Err(last.error) else Ok(before.value + [last.value])
  }

  /** Relay access is granted last, over whatever the layers say. */
  function Force(base: Json): Result<Option<Json>, ConfigError>
    requires base.Obj?
  {
    var sandbox := if SANDBOX in base.fields then base.fields[SANDBOX] else Obj(map[]);
    if sandbox.Obj? then
      Ok(Some(Obj(base.fields[SANDBOX := Obj(sandbox.fields[NETWORK := Bool(true)])])))
    else Err(SandboxNotAnObject(sandbox))
  }

  /** The layers in rising precedence: persona, generated entries, parent environment. */
  function Layers(env: seq<(string, string)>, parent: Option<string>, parse: string -> Option<Json>)
    : Result<seq<Json>, ConfigError>
  {
    var parsed := ParseLayers(Entries(env), parse);
    if parsed.Err? || parent.None? then parsed
    else
      var last := ParseLayer(parent.value, Parent, parse);
      if last.Err? then Err(last.error) else Ok(parsed.value + [last.value])
  }

  lemma {:induction false} LayersAreObjects(raws: seq<string>, parse: string -> Option<Json>)
    ensures ParseLayers(raws, parse).Ok? ==>
              && |ParseLayers(raws, parse).value| == |raws|
              && forall i | 0 <= i < |raws| ::
                   ParseLayers(raws, parse).value[i].Obj? && parse(raws[i]) == Some(ParseLayers(raws, parse).value[i])
  {
    if raws != [] {
      LayersAreObjects(raws[..|raws| - 1], parse);
    }
  }

  lemma {:induction false} MergeAllIsObject(layers: seq<Json>)
    requires layers != [] && forall i | 0 <= i < |layers| :: layers[i].Obj?
    ensures MergeAll(layers).Obj?
  {
    if |layers| > 1 {
      MergeAllIsObject(layers[..|layers| - 1]);
    }
  }

  lemma LayersHold(env: seq<(string, string)>, parent: Option<string>, parse: string -> Option<Json>)
    requires Entries(env) != [] && Layers(env, parent, parse).Ok?
    ensures var layers := Layers(env, parent, parse).value;
            layers != [] && forall i | 0 <= i < |layers| :: layers[i].Obj?
  {
    hide Entries;
    LayersAreObjects(Entries(env), parse);
  }

  /** What is built: nothing without the signal or without an entry, otherwise the merged
    layers with the grant, or the first fault. */
  function Built(env: seq<(string, string)>, parent: Option<string>, hasGenerated: bool, parse: string -> Option<Json>)
    : Result<Option<Json>, ConfigError>
  {
    if !hasGenerated || Entries(env) == [] then Ok(None)
    else
      var layers := Layers(env, parent, parse);
      if layers.Err? then Err(layers.error)
      else
        LayersHold(env, parent, parse);
        MergeAllIsObject(layers.value);
        Force(MergeAll(layers.value))
  }

  method CollectEntries(env: seq<(string, string)>) returns (raws: seq<string>)
    ensures raws == Entries(env)
  {
    raws := [];
    for i := 0 to |env|
      invariant raws == Entries(env[..i])
    {
      assert env[..i + 1][..i] == env[..i];
      if env[i].0 == CODEX_CONFIG {
        raws := raws + [env[i].1];
      }
    }
    assert env[..|env|] == env;
  }

  method ParseEntries(raws: seq<string>, parse: string -> Option<Json>) returns (r: Result<seq<Json>, ConfigError>)
    ensures r == ParseLayers(raws, parse)
  {
    hide ParseLayer;
    var layers: seq<Json> := [];
    for i := 0 to |raws|
      invariant ParseLayers(raws[..i], parse) == Ok(layers)
    {
      assert raws[..i + 1][..i] == raws[..i];
      var layer := ParseLayer(raws[i], LayerAt(i), parse);
      if layer.Err? {
        ParseFails(raws, i + 1, parse);
        return Err(layer.error);
      }
      layers := layers + [layer.value];
    }
    assert raws[..|raws|] == raws;
    return Ok(layers);
  }

  method MergeLayers(layers: seq<Json>) returns (base: Json)
    requires layers != [] && forall i | 0 <= i < |layers| :: layers[i].Obj?
    ensures base.Obj? && base == MergeAll(layers)
  {
    base := layers[0];
    for i := 1 to |layers|
      invariant base == MergeAll(layers[..i])
      invariant base.Obj?
    {
      assert layers[..i + 1][..i] == layers[..i];
      var merged := DeepMerge(base.fields, layers[i].fields);
      base := Obj(merged);
    }
    assert layers[..|layers|] == layers;
  }

  /** `build_codex_config_env`. */
  method BuildCodexConfigEnv(env: seq<(string, string)>, parent: Option<string>, hasGenerated: bool,
                             parse: string -> Option<Json>)
    returns (r: Result<Option<Json>, ConfigError>)
    ensures r == Built(env, parent, hasGenerated, parse)
  {
    hide Entries, ParseLayers, Merge;
    if !hasGenerated {
      return Ok(None);
    }
    var raws := CollectEntries(env);
    if raws == [] {
      return Ok(None);
    }
    var layers := ParseEntries(raws, parse);
    if layers.Err? {
      return Err(layers.error);
    }
    LayersAreObjects(raws, parse);
    var base := MergeLayers(layers.value);
    if parent.Some? {
      var layer := ParseLayer(parent.value, Parent, parse);
      if layer.Err? {
        return Err(layer.error);
      }
      assert (layers.value + [layer.value])[..|layers.value|] == layers.value;
      var merged := DeepMerge(base.fields, layer.value.fields);
      base := Obj(merged);
    }
    var sandbox := if SANDBOX in base.fields then base.fields[SANDBOX] else Obj(map[]);
    if !sandbox.Obj? {
      return Err(SandboxNotAnObject(sandbox));
    }
    return Ok(Some(Obj(base.fields[SANDBOX := Obj(sandbox.fields[NETWORK := Bool(true)])])));
  }

  lemma {:induction false} ParseFails(raws: seq<string>, n: nat, parse: string -> Option<Json>)
    requires n <= |raws| && ParseLayers(raws[..n], parse).Err?
    ensures ParseLayers(raws, parse) == ParseLayers(raws[..n], parse)
    decreases |raws|
  {
    if n == |raws| {
      assert raws[..n] == raws;
    } else {
      assert raws[..|raws| - 1][..n] == raws[..n];
      ParseFails(raws[..|raws| - 1], n, parse);
    }
  }

  /** Every configuration built grants network access; at any other path that does not
    lead to the grant it holds what the merged layers hold. */
  lemma ForceGrantsNetwork(base: Json, path: seq<string>)
    requires base.Obj? && Force(base).Ok?
    ensures var j := Force(base).value.value;
            && Lookup(j, [SANDBOX, NETWORK]) == Some(Bool(true))
            && (path != [] && path[0] != SANDBOX ==> Lookup(j, path) == Lookup(base, path))
            && (|path| > 1 && path[0] == SANDBOX && path[1] != NETWORK ==> Lookup(j, path) == Lookup(base, path))
  {
    var j := Force(base).value.value;
    assert [SANDBOX, NETWORK][1..] == [NETWORK] && [NETWORK][1..] == [];
    assert Lookup(j.fields[SANDBOX], [NETWORK]) == Lookup(j.fields[SANDBOX].fields[NETWORK], []);
    if |path| > 1 && path[0] == SANDBOX && path[1] != NETWORK {
      assert path[1..][0] == path[1];
      if SANDBOX in base.fields {
        assert Lookup(j.fields[SANDBOX], path[1..]) == Lookup(base.fields[SANDBOX], path[1..]);
      } else {
        assert Lookup(j.fields[SANDBOX], path[1..]).None?;
      }
    }
  }

  // What is built, told by the environment itself.

  predicate IsEntry(env: seq<(string, string)>, i: int) {
    0 <= i < |env| && env[i].0 == "CODEX_CONFIG"
  }

  predicate Holds(raw: string, parse: string -> Option<Json>, path: seq<string>, v: Json) {
    parse(raw).Some? && Lookup(parse(raw).value, path) == Some(v)
  }

  /** The text says nothing at the path, nor anything against it. */
  predicate Silent(raw: string, parse: string -> Option<Json>, path: seq<string>) {
    parse(raw).Some? && Lookup(parse(raw).value, path).None? && Permits(parse(raw).value, path)
  }

  ghost predicate LastToSpeak(env: seq<(string, string)>, parse: string -> Option<Json>, path: seq<string>, v: Json, i: int) {
    && IsEntry(env, i) && Holds(env[i].1, parse, path, v)
    && forall j | i < j && IsEntry(env, j) :: Silent(env[j].1, parse, path)
  }

  /** The parent holds the value at the path; or it is silent there, and so is every entry
    behind one that holds it. */
  ghost predicate Decided(env: seq<(string, string)>, parent: Option<string>, parse: string -> Option<Json>,
                          path: seq<string>, v: Json)
  {
    || (parent.Some? && Holds(parent.value, parse, path, v))
    || ((parent.Some? ==> Silent(parent.value, parse, path)) && exists i :: LastToSpeak(env, parse, path, v, i))
  }

  lemma LastToSpeakInPrefix(env: seq<(string, string)>, parse: string -> Option<Json>, path: seq<string>, v: Json, i: int)
    requires env != []
    ensures var n := |env| - 1;
            LastToSpeak(env, parse, path, v, i) <==>
            if i == n then IsEntry(env, n) && Holds(env[n].1, parse, path, v)
            else LastToSpeak(env[..n], parse, path, v, i) && (IsEntry(env, n) ==> Silent(env[n].1, parse, path))
  {
    hide Holds, Silent;
    var n := |env| - 1;
    assert forall j | 0 <= j < n :: env[..n][j] == env[j] && (IsEntry(env, j) <==> IsEntry(env[..n], j));
    if i != n && LastToSpeak(env, parse, path, v, i) {
      assert IsEntry(env[..n], i);
      forall j | i < j && IsEntry(env[..n], j) ensures Silent(env[..n][j].1, parse, path) {
        assert IsEntry(env, j);
      }
    } else if i != n && LastToSpeak(env[..n], parse, path, v, i) && (IsEntry(env, n) ==> Silent(env[n].1, parse, path)) {
      assert IsEntry(env, i);
      forall j | i < j && IsEntry(env, j) ensures Silent(env[j].1, parse, path) {
        assert j < n ==> IsEntry(env[..n], j);
      }
    }
  }

  ghost predicate SomeEntrySpeaks(env: seq<(string, string)>, parse: string -> Option<Json>, path: seq<string>, v: Json) {
    exists i :: LastToSpeak(env, parse, path, v, i)
  }

  lemma SomeEntryIn(env: seq<(string, string)>, parse: string -> Option<Json>, path: seq<string>, v: Json)
    requires env != []
    ensures var n := |env| - 1;
            SomeEntrySpeaks(env, parse, path, v) <==>
            if IsEntry(env, n) then Holds(env[n].1, parse, path, v)
                                    || (Silent(env[n].1, parse, path) && SomeEntrySpeaks(env[..n], parse, path, v))
            else SomeEntrySpeaks(env[..n], parse, path, v)
  {
    var n := |env| - 1;
    forall i ensures LastToSpeak(env, parse, path, v, i) <==>
                     if i == n then IsEntry(env, n) && Holds(env[n].1, parse, path, v)
                     else LastToSpeak(env[..n], parse, path, v, i) && (IsEntry(env, n) ==> Silent(env[n].1, parse, path)) {
      LastToSpeakInPrefix(env, parse, path, v, i);
    }
    assert forall i :: LastToSpeak(env[..n], parse, path, v, i) ==> i != n;
    hide LastToSpeak, Holds, Silent;
    if IsEntry(env, n) && Holds(env[n].1, parse, path, v) {
      assert LastToSpeak(env, parse, path, v, n);
    }
    if SomeEntrySpeaks(env[..n], parse, path, v) && (IsEntry(env, n) ==> Silent(env[n].1, parse, path)) {
      var i :| LastToSpeak(env[..n], parse, path, v, i);
      assert LastToSpeak(env, parse, path, v, i);
    }
  }

  ghost predicate SomeLayerSpeaks(layers: seq<Json>, path: seq<string>, v: Json) {
    exists i :: SpeaksLast(layers, path, i, v)
  }

  lemma SomeLayerIn(layers: seq<Json>, last: Json, path: seq<string>, v: Json)
    ensures SomeLayerSpeaks(layers + [last], path, v) <==>
            Lookup(last, path) == Some(v) || (Lookup(last, path).None? && Permits(last, path) && SomeLayerSpeaks(layers, path, v))
  {
    var all, n := layers + [last], |layers|;
    assert all[..n] == layers;
    forall i ensures SpeaksLast(all, path, i, v) <==>
                     if i == n then Lookup(last, path) == Some(v)
                     else SpeaksLast(layers, path, i, v) && Lookup(last, path).None? && Permits(last, path) {
      SpeakersInPrefix(all, path, i, v);
    }
    assert forall i :: SpeaksLast(layers, path, i, v) ==> i != n;
    hide SpeaksLast, Lookup, Permits;
    if Lookup(last, path) == Some(v) {
      assert SpeaksLast(all, path, n, v);
    }
    if Lookup(last, path).None? && Permits(last, path) && SomeLayerSpeaks(layers, path, v) {
      var i :| SpeaksLast(layers, path, i, v);
      assert SpeaksLast(all, path, i, v);
    }
  }

  lemma ParseOneMore(env: seq<(string, string)>, parse: string -> Option<Json>)
    requires env != []
    ensures var n := |env| - 1;
            var before := ParseLayers(Entries(env[..n]), parse);
            ParseLayers(Entries(env), parse)
              == if !IsEntry(env, n) || before.Err? then before
                 else
                   var last := ParseLayer(env[n].1, LayerAt(|Entries(env[..n])|), parse);
                   if last.Err? then Err(last.error) else Ok(before.value + [last.value])
  {
    hide ParseLayer;
    var n := |env| - 1;
    var raws := Entries(env[..n]);
    if IsEntry(env, n) {
      assert Entries(env) == raws + [env[n].1] && Entries(env)[..|raws|] == raws;
    } else {
      assert Entries(env) == raws;
    }
  }

  /** The order of the layers is the order of the environment. */
  lemma {:induction false} EntriesSpeakAsLayers(env: seq<(string, string)>, parse: string -> Option<Json>, path: seq<string>, v: Json)
    requires ParseLayers(Entries(env), parse).Ok?
    ensures SomeLayerSpeaks(ParseLayers(Entries(env), parse).value, path, v) <==> SomeEntrySpeaks(env, parse, path, v)
  {
    if env == [] {
      NobodyBefore([], path, v);
    } else {
      hide SomeLayerSpeaks, SomeEntrySpeaks, ParseLayers, Lookup, Permits, Entries;
      var n := |env| - 1;
      ParseOneMore(env, parse);
      EntriesSpeakAsLayers(env[..n], parse, path, v);
      SomeEntryIn(env, parse, path, v);
      if IsEntry(env, n) {
        SomeLayerIn(ParseLayers(Entries(env[..n]), parse).value, parse(env[n].1).value, path, v);
      }
    }
  }

  lemma LayersDecide(env: seq<(string, string)>, parent: Option<string>, parse: string -> Option<Json>, path: seq<string>, v: Json)
    requires Layers(env, parent, parse).Ok?
    ensures SomeLayerSpeaks(Layers(env, parent, parse).value, path, v) <==> Decided(env, parent, parse, path, v)
  {
    hide Entries, ParseLayers, SomeLayerSpeaks, LastToSpeak;
    EntriesSpeakAsLayers(env, parse, path, v);
    if parent.Some? {
      SomeLayerIn(ParseLayers(Entries(env), parse).value, parse(parent.value).value, path, v);
    }
  }

  /** What the merged layers hold at a leaf. */
  lemma MergedDecided(env: seq<(string, string)>, parent: Option<string>, parse: string -> Option<Json>, path: seq<string>, v: Json)
    requires Entries(env) != [] && Layers(env, parent, parse).Ok? && !v.Obj?
    ensures var layers := Layers(env, parent, parse).value;
            layers != [] && MergeAll(layers).Obj?
            && (Lookup(MergeAll(layers), path) == Some(v) <==> Decided(env, parent, parse, path, v))
  {
    var layers := Layers(env, parent, parse).value;
    LayersHold(env, parent, parse);
    LayersDecide(env, parent, parse, path, v);
    hide Layers, Entries, Merge, MergeAll, SpeaksLast, Decided;
    MergeAllIsObject(layers);
    LastSpeakerWins(layers, path, v);
  }

  /** Off the grant, the configuration built holds a leaf at a path exactly if the parent
    holds it there, or the parent is silent and the last entry of the environment to say
    anything there holds it; on the path of the grant it holds `true`, and nothing below. */
  lemma ConfigLeaf(env: seq<(string, string)>, parent: Option<string>, hasGenerated: bool, parse: string -> Option<Json>,
                   path: seq<string>, v: Json)
    requires Built(env, parent, hasGenerated, parse).Ok? && Built(env, parent, hasGenerated, parse).value.Some? && !v.Obj?
    ensures var grant := ["sandbox_workspace_write", "network_access"];
            Lookup(Built(env, parent, hasGenerated, parse).value.value, path) == Some(v) <==>
            if grant <= path then path == grant && v == Bool(true)
            else Decided(env, parent, parse, path, v)
  {
    hide Layers, Entries, Merge, MergeAll, Decided;
    MergedDecided(env, parent, parse, path, v);
    ForcedLeaf(MergeAll(Layers(env, parent, parse).value), path, v);
  }

  // When nothing is built, and why.

  predicate IsObject(raw: string, parse: string -> Option<Json>) {
    parse(raw).Some? && parse(raw).value.Obj?
  }

  predicate Fault(raw: string, parse: string -> Option<Json>, layer: Layer, e: ConfigError) {
    (parse(raw).None? && e == NotJson(layer)) || (parse(raw).Some? && !parse(raw).value.Obj? && e == NotAnObject(layer))
  }

  ghost predicate SomeEntry(env: seq<(string, string)>) {
    exists i :: IsEntry(env, i)
  }

  ghost predicate AllObjects(env: seq<(string, string)>, parse: string -> Option<Json>) {
    forall i | IsEntry(env, i) :: IsObject(env[i].1, parse)
  }

  /** The first entry that is no object is at `i`; it is the persona's exactly if no entry
    stands before it. */
  ghost predicate FirstFault(env: seq<(string, string)>, parse: string -> Option<Json>, e: ConfigError, i: int) {
    && IsEntry(env, i) && AllObjects(env[..i], parse)
    && Fault(env[i].1, parse, if SomeEntry(env[..i]) then Generated else Persona, e)
  }

  /** Why nothing can be built: a text that is no object, the entries' before the parent's;
    or a sandbox setting, decided like every other, that is no object. */
  ghost predicate Refused(env: seq<(string, string)>, parent: Option<string>, parse: string -> Option<Json>, e: ConfigError) {
    || (exists i :: FirstFault(env, parse, e, i))
    || (AllObjects(env, parse) && parent.Some? && Fault(parent.value, parse, Parent, e))
    || (AllObjects(env, parse) && (parent.Some? ==> IsObject(parent.value, parse))
        && e.SandboxNotAnObject? && !e.found.Obj? && Decided(env, parent, parse, ["sandbox_workspace_write"], e.found))
  }

  ghost predicate SomeFault(env: seq<(string, string)>, parse: string -> Option<Json>, e: ConfigError) {
    exists i :: FirstFault(env, parse, e, i)
  }

  lemma EntriesInPrefix(env: seq<(string, string)>, parse: string -> Option<Json>)
    requires env != []
    ensures var n := |env| - 1;
            && (SomeEntry(env) <==> SomeEntry(env[..n]) || IsEntry(env, n))
            && (AllObjects(env, parse) <==> AllObjects(env[..n], parse) && (IsEntry(env, n) ==> IsObject(env[n].1, parse)))
  {
    var n := |env| - 1;
    assert forall j | 0 <= j < n :: env[..n][j] == env[j] && (IsEntry(env, j) <==> IsEntry(env[..n], j));
    hide IsObject;
    if SomeEntry(env[..n]) {
      var i :| IsEntry(env[..n], i);
      assert IsEntry(env, i);
    }
    if AllObjects(env, parse) {
      forall i | IsEntry(env[..n], i) ensures IsObject(env[..n][i].1, parse) {
        assert IsEntry(env, i);
      }
    }
  }

  lemma FaultInPrefix(env: seq<(string, string)>, parse: string -> Option<Json>, e: ConfigError)
    requires env != []
    ensures SomeFault(env, parse, e) <==> SomeFault(env[..|env| - 1], parse, e) || FirstFault(env, parse, e, |env| - 1)
  {
    hide Fault, AllObjects, SomeEntry;
    var n := |env| - 1;
    forall i | 0 <= i < n ensures FirstFault(env, parse, e, i) <==> FirstFault(env[..n], parse, e, i) {
      assert env[..n][..i] == env[..i];
    }
    if SomeFault(env, parse, e) {
      var i :| FirstFault(env, parse, e, i);
      assert i < n ==> FirstFault(env[..n], parse, e, i);
    }
    if SomeFault(env[..n], parse, e) {
      var i :| FirstFault(env[..n], parse, e, i);
      assert FirstFault(env, parse, e, i);
    }
  }

  lemma {:induction false} EntriesThere(env: seq<(string, string)>)
    ensures Entries(env) == [] <==> !SomeEntry(env)
  {
    if env != [] {
      EntriesThere(env[..|env| - 1]);
      EntriesInPrefix(env, raw => None);
      hide SomeEntry;
    }
  }

  /** The entries parse exactly if all are objects; otherwise the first fault is named. */
  lemma {:induction false} EntriesParse(env: seq<(string, string)>, parse: string -> Option<Json>, e: ConfigError)
    ensures ParseLayers(Entries(env), parse).Ok? <==> AllObjects(env, parse)
    ensures ParseLayers(Entries(env), parse) == Err(e) <==> SomeFault(env, parse, e)
  {
    if env != [] {
      var n := |env| - 1;
      EntriesParse(env[..n], parse, e);
      EntriesInPrefix(env, parse);
      FaultInPrefix(env, parse, e);
      ParseOneMore(env, parse);
      EntriesThere(env[..n]);
      hide SomeEntry, AllObjects, SomeFault, ParseLayers, Entries;
      if ParseLayers(Entries(env[..n]), parse).Err? {
        assert !AllObjects(env[..n], parse);
      }
    }
  }

  /** Nothing is built, without a fault, exactly if the signal is off or no entry is there;
    and with both, the fault is exactly the one there is. */
  lemma BuildsUnless(env: seq<(string, string)>, parent: Option<string>, hasGenerated: bool, parse: string -> Option<Json>,
                     e: ConfigError)
    ensures Built(env, parent, hasGenerated, parse) == Ok(None) <==> !hasGenerated || !SomeEntry(env)
    ensures Built(env, parent, hasGenerated, parse) == Err(e) <==>
              hasGenerated && SomeEntry(env) && Refused(env, parent, parse, e)
  {
    hide Entries, ParseLayers, Merge, MergeAll, SomeEntry, AllObjects, FirstFault, Decided;
    EntriesParse(env, parse, e);
    EntriesThere(env);
    if hasGenerated && SomeEntry(env) && Layers(env, parent, parse).Ok? {
      LayersHold(env, parent, parse);
      MergeAllIsObject(Layers(env, parent, parse).value);
      if e.SandboxNotAnObject? && !e.found.Obj? {
        MergedDecided(env, parent, parse, ["sandbox_workspace_write"], e.found);
      }
      SandboxFault(MergeAll(Layers(env, parent, parse).value), e);
    }
  }

  lemma SandboxFault(base: Json, e: ConfigError)
    requires base.Obj?
    ensures Force(base) == Err(e) <==>
            e.SandboxNotAnObject? && !e.found.Obj? && Lookup(base, ["sandbox_workspace_write"]) == Some(e.found)
  {
    assert ["sandbox_workspace_write"][1..] == [];
  }

  lemma ForcedLeaf(base: Json, path: seq<string>, v: Json)
    requires base.Obj? && Force(base).Ok? && !v.Obj?
    ensures Lookup(Force(base).value.value, path) == Some(v) <==>
            if [SANDBOX, NETWORK] <= path then path == [SANDBOX, NETWORK] && v == Bool(true)
            else Lookup(base, path) == Some(v)
  {
    var config := Force(base).value.value;
    ForceGrantsNetwork(base, path);
    if [SANDBOX, NETWORK] <= path {
      assert path[0] == SANDBOX && path[1] == NETWORK && path[1..][0] == NETWORK && path[1..][1..] == path[2..];
      assert Lookup(config, path) == Lookup(config.fields[SANDBOX], path[1..]) == Lookup(Bool(true), path[2..]);
      assert path == [SANDBOX, NETWORK] + path[2..];
    } else if path == [] {
    } else if path[0] == SANDBOX && |path| == 1 {
      assert path[1..] == [];
      assert Lookup(config, path) == Some(config.fields[SANDBOX]);
      assert SANDBOX in base.fields ==> Lookup(base, path) == Some(base.fields[SANDBOX]);
    } else if path[0] == SANDBOX {
      assert path == [SANDBOX, path[1]] + path[2..];
    }
  }
}
