/**
 Resolving a JSON Schema node: following references, merging what it is composed of, and the branches that a
 value in hand selects. Schemas are graphs: dictionaries with identity, which may contain themselves.
 */
module SchemaRefs {
  import opened Wrappers

  datatype Value =
    | Text(text: string)
    | Obj(id: nat)
    | Items(items: seq<Value>)
    | Fresh(entries: map<string, Value>)
    | Bool(truth: bool)
    | Scalar
  type Dict = map<string, Value>
  type Graph = map<nat, Dict>

  /** A dictionary of the graph, or one that merging made. */
  datatype Schema = Known(id: nat) | Made(entries: Dict)

  /** What the value at the path is, when there is one: a dictionary with these keys, or something else. */
  datatype Context = Keys(keys: set<string>) | Plain

  /******* JSON Pointers, section 4 of RFC 6901 *******/

  function Replace(s: string, mark: char, c: char): string {
    if |s| >= 2 && s[0] == '~' && s[1] == mark then [c] + Replace(s[2..], mark, c)
    else if s == "" then ""
    else [s[0]] + Replace(s[1..], mark, c)
  }

  function Unescape(part: string): string {
    Replace(Replace(part, '1', '/'), '0', '~')
  }

  function Escape(key: string): string {
    if key == "" then ""
    else (if key[0] == '~' then "~0" else if key[0] == '/' then "~1" else [key[0]]) + Escape(key[1..])
  }

  /** Escaping with ~0 alone, as it stands between the two replacements. */
  function Half(key: string): string {
    if key == "" then "" else (if key[0] == '~' then "~0" else [key[0]]) + Half(key[1..])
  }

  /** A key that was escaped is what the part of a pointer names: the escaped slashes are replaced first. */
  lemma {:induction false} UnescapeEscape(key: string)
    ensures Replace(Escape(key), '1', '/') == Half(key) && Replace(Half(key), '0', '~') == key
    ensures Unescape(Escape(key)) == key
    decreases |key|
  {
    if key != "" {
      UnescapeEscape(key[1..]);
      var e, h := Escape(key), Half(key);
      if key[0] == '~' {
        assert e[0] == '~' && e[1] == '0' && e[1..] == "0" + Escape(key[1..]) && e[1..][1..] == Escape(key[1..]);
        assert Replace(e, '1', '/') == "~" + Replace(e[1..], '1', '/');
        assert Replace(e[1..], '1', '/') == "0" + Replace(Escape(key[1..]), '1', '/');
        assert h[2..] == Half(key[1..]);
      } else if key[0] == '/' {
        assert e[2..] == Escape(key[1..]);
        assert h[1..] == Half(key[1..]);
      } else {
        assert e[1..] == Escape(key[1..]) && h[1..] == Half(key[1..]);
      }
    }
  }

  function Parts(s: string): (parts: seq<string>)
    ensures |parts| > 0
  {
    if s == "" then [""]
    else
      var rest := Parts(s[1..]);
      if s[0] == '/' then [""] + rest else [[s[0]] + rest[0]] + rest[1..]
  }

  /** Where the parts of a pointer lead from a dictionary. */
  function Walk(g: Graph, at: nat, parts: seq<string>): (r: Option<nat>)
    requires at in g
    ensures r.Some? ==> r.value in g
    decreases |parts|
  {
    if parts == [] then Some(at)
    else
      var key := Unescape(parts[0]);
      if key in g[at] && g[at][key].Obj? && g[at][key].id in g then Walk(g, g[at][key].id, parts[1..]) else None
  }

  /** _resolve_schema_ref */
  function ResolveRef(g: Graph, root: Option<nat>, ref: string): (r: Option<nat>)
    requires root.Some? ==> root.value in g
    ensures r.Some? ==> r.value in g
  {
    if root.None? then None
    else if ref == "#" then root
    else if |ref| < 2 || ref[..2] != "#/" then None
    else Walk(g, root.value, Parts(ref[2..]))
  }

  /******* Merging *******/

  /** The keys whose value is taken from the overlay, and those whose dictionaries are joined. */
  predicate Overriding(key: string) {
    key in ["type", "items", "prefixItems", "additionalItems", "additionalProperties", "contains", "unevaluatedItems",
            "unevaluatedProperties", "propertyNames"]
  }

  predicate Joining(key: string) {
    key == "properties" || key == "patternProperties"
  }

  function Entries(g: Graph, v: Value): Option<Dict> {
    match v
    case Obj(id) => if id in g then Some(g[id]) else None
    case Fresh(entries) => Some(entries)
    case _ => None
  }

  function Joined(g: Graph, a: Value, b: Value): Value {
    if Entries(g, a).Some? && Entries(g, b).Some? then Fresh(Entries(g, a).value + Entries(g, b).value) else b
  }

  /** _merge_schema_hints: some keys from the overlay, some joined, all others from the base if it has them. */
  function Merge(g: Graph, base: Dict, overlay: Dict): Dict {
    map key | key in base.Keys + overlay.Keys && (key in base || key != "$ref") ::
      if key !in overlay then base[key]
      else if key !in base || Overriding(key) then overlay[key]
      else if Joining(key) then Joined(g, base[key], overlay[key])
      else base[key]
  }

  /** _merge_alternative_schema_hints: an alternative that lets in any properties lets the merge do so. */
  function MergeAlternatives(g: Graph, schemas: seq<Dict>): Dict {
    var merged, additional := MergeEach(g, schemas), Additional(schemas);
    if additional.Some? then merged["additionalProperties" := additional.value] else merged
  }

  function MergeEach(g: Graph, schemas: seq<Dict>): Dict {
    if schemas == [] then map[] else Merge(g, MergeEach(g, schemas[..|schemas| - 1]), schemas[|schemas| - 1])
  }

  function Additional(schemas: seq<Dict>): Option<Value> {
    if schemas == [] then None
    else
      var last := schemas[|schemas| - 1];
      if "additionalProperties" in last
        && (last["additionalProperties"] == Bool(true) || last["additionalProperties"].Obj?
            || last["additionalProperties"].Fresh?)
      then Some(last["additionalProperties"]) else Additional(schemas[..|schemas| - 1])
  }

  /** Merging takes no reference from the overlay, and keeps the base's. */
  lemma MergeKeepsRef(g: Graph, base: Dict, overlay: Dict)
    ensures "$ref" in Merge(g, base, overlay) <==> "$ref" in base
    ensures "$ref" in base ==> Merge(g, base, overlay)["$ref"] == base["$ref"]
  {
    assert !Overriding("$ref") && !Joining("$ref");
  }

  /******* What merging keeps *******/

  /** The keys a node is composed by, which resolving it does away with. */
  predicate Composing(key: string) {
    key == "allOf" || key == "anyOf" || key == "oneOf"
  }

  /** No other keyword is lost. */
  ghost predicate KeepsKeys(d: Dict, r: Dict) {
    forall key | key in d && key != "$ref" && !Composing(key) :: key in r
  }

  /** What says which values there can be, and what they contain, is as it was. */
  ghost predicate KeepsTypes(d: Dict, r: Dict) {
    forall key | key in d && Overriding(key) :: key in r && r[key] == d[key]
  }

  /** Merging loses no key, and where both sides say of which type values are, the overlay is right. */
  lemma MergeKeeps(g: Graph, base: Dict, overlay: Dict)
    ensures KeepsKeys(base, Merge(g, base, overlay)) && KeepsKeys(overlay, Merge(g, base, overlay))
    ensures KeepsTypes(overlay, Merge(g, base, overlay))
    ensures (forall key | key in overlay :: !Overriding(key)) ==> KeepsTypes(base, Merge(g, base, overlay))
    ensures forall key | key in Merge(g, base, overlay) :: key in base || (key in overlay && key != "$ref")
  {
    assert !Overriding("$ref");
  }

  lemma KeepsThrough(d: Dict, mid: Dict, r: Dict)
    ensures KeepsKeys(d, mid) && KeepsKeys(mid, r) ==> KeepsKeys(d, r)
    ensures KeepsTypes(d, mid) && KeepsTypes(mid, r) ==> KeepsTypes(d, r)
    ensures KeepsKeys(d, d) && KeepsTypes(d, d)
  {
  }

  lemma {:induction false} EachKept(g: Graph, schemas: seq<Dict>, i: nat)
    requires i < |schemas|
    ensures KeepsKeys(schemas[i], MergeEach(g, schemas)) && KeepsKeys(schemas[i], MergeAlternatives(g, schemas))
    decreases |schemas|
  {
    var front, last := schemas[..|schemas| - 1], schemas[|schemas| - 1];
    MergeKeeps(g, MergeEach(g, front), last);
    if i < |front| {
      EachKept(g, front, i);
      KeepsThrough(schemas[i], MergeEach(g, front), MergeEach(g, schemas));
    }
  }

  /** Of each dictionary among some values every keyword is among these. */
  ghost predicate KeepsAll(g: Graph, items: seq<Value>, r: Dict) {
    forall i | 0 <= i < |items| && items[i].Obj? && items[i].id in g :: KeepsKeys(g[items[i].id], r)
  }

  /** Of each dictionary among some values every keyword is in one of these. */
  ghost predicate KeptByOne(g: Graph, items: seq<Value>, resolved: seq<Dict>) {
    forall i | 0 <= i < |items| && items[i].Obj? && items[i].id in g ::
      exists j :: 0 <= j < |resolved| && KeepsKeys(g[items[i].id], resolved[j])
  }

  lemma AllKept(g: Graph, items: seq<Value>, resolved: seq<Dict>, overlay: Dict)
    requires KeptByOne(g, items, resolved)
    ensures KeepsAll(g, items, Merge(g, MergeEach(g, resolved), overlay))
    ensures KeepsAll(g, items, Merge(g, MergeAlternatives(g, resolved), overlay))
  {
    hide KeepsKeys, Merge, MergeEach, MergeAlternatives;
    forall i | 0 <= i < |items| && items[i].Obj? && items[i].id in g
      ensures KeepsKeys(g[items[i].id], Merge(g, MergeEach(g, resolved), overlay))
      ensures KeepsKeys(g[items[i].id], Merge(g, MergeAlternatives(g, resolved), overlay))
    {
      var j :| 0 <= j < |resolved| && KeepsKeys(g[items[i].id], resolved[j]);
      EachKept(g, resolved, j);
      MergeKeeps(g, MergeEach(g, resolved), overlay);
      MergeKeeps(g, MergeAlternatives(g, resolved), overlay);
      KeepsThrough(g[items[i].id], resolved[j], MergeEach(g, resolved));
      KeepsThrough(g[items[i].id], MergeEach(g, resolved), Merge(g, MergeEach(g, resolved), overlay));
      KeepsThrough(g[items[i].id], resolved[j], MergeAlternatives(g, resolved));
      KeepsThrough(g[items[i].id], MergeAlternatives(g, resolved), Merge(g, MergeAlternatives(g, resolved), overlay));
    }
  }

  lemma KeepsAllThrough(g: Graph, items: seq<Value>, mid: Dict, r: Dict)
    requires KeepsAll(g, items, mid) && KeepsKeys(mid, r)
    ensures KeepsAll(g, items, r)
  {
  }

  /** The dictionaries that a node is composed of. */
  function ComposedOf(d: Dict): seq<Value> {
    if "allOf" in d && d["allOf"].Items? then d["allOf"].items
    else if "anyOf" in d && d["anyOf"].Items? then d["anyOf"].items
    else if "oneOf" in d && d["oneOf"].Items? then d["oneOf"].items
    else []
  }

  /** The node is composed of something. */
  predicate Composed(d: Dict) {
    || ("allOf" in d && d["allOf"].Items?)
    || ("anyOf" in d && d["anyOf"].Items?)
    || ("oneOf" in d && d["oneOf"].Items?)
  }

  /** All parts add their keywords, as do all alternatives unless there is a value that can rule some out. */
  ghost predicate PartsKept(g: Graph, d: Dict, context: Option<Context>, r: Dict) {
    ("allOf" in d && d["allOf"].Items?) || context.None? ==> KeepsAll(g, ComposedOf(d), r)
  }

  /** Nothing is to be merged in: the node is not composed, and has nothing for a dictionary in hand. */
  predicate Plainly(d: Dict, context: Option<Context>) {
    && !Composed(d)
    && (context.Some? && context.value.Keys? ==>
          && !("dependentSchemas" in d && d["dependentSchemas"].Obj?)
          && !("if" in d && d["if"].Obj?))
  }

  lemma NothingComposed(g: Graph, d: Dict, context: Option<Context>, r: Dict)
    ensures !Composed(d) ==> PartsKept(g, d, context, r)
  {
  }

  /** What the parts are, by the keys they are listed under. */
  lemma PartsListed(d: Dict)
    ensures "allOf" in d && d["allOf"].Items? ==> ComposedOf(d) == d["allOf"].items && Composed(d)
    ensures !("allOf" in d && d["allOf"].Items?) ==>
      var key := if "anyOf" in d && d["anyOf"].Items? then "anyOf" else "oneOf";
      if key in d && d[key].Items? then ComposedOf(d) == d[key].items && Composed(d) else !Composed(d)
  {
  }

  lemma ValueInside(g: Graph, d: Dict, key: string)
    requires Closed(d, g) && key in d && !Joining(key)
    ensures Inside(d[key], g)
    ensures d[key].Items? ==> forall i | 0 <= i < |d[key].items| :: Inside(d[key].items[i], g)
    ensures d[key].Obj? ==> d[key].id in g
  {
  }

  lemma NoneToKeep(g: Graph, items: seq<Value>, resolved: seq<Dict>, r: Dict)
    requires KeptByOne(g, items, resolved) && resolved == []
    ensures KeepsAll(g, items, r)
  {
  }

  /** Everything but the keys it is composed by. */
  lemma SiblingsKept(d: Dict, r: Dict)
    requires KeepsKeys(d - {"allOf", "anyOf", "oneOf"}, r) && KeepsTypes(d - {"allOf", "anyOf", "oneOf"}, r)
    ensures KeepsKeys(d, r) && KeepsTypes(d, r)
  {
    assert !Overriding("allOf") && !Overriding("anyOf") && !Overriding("oneOf");
  }

  /******* What can be reached *******/

  ghost predicate Inside(v: Value, g: Graph) {
    match v
    case Obj(id) => id in g
    case Items(items) => forall i | 0 <= i < |items| :: Inside(items[i], g)
    case Fresh(_) => false
    case _ => true
  }

  /** The texts of references in the graph. */
  ghost function Refs(g: Graph): set<string> {
    set id | id in g && "$ref" in g[id] && g[id]["$ref"].Text? :: g[id]["$ref"].text
  }

  /** Every dictionary that one in the graph or one made of them can lead to is in the graph. */
  ghost predicate Closed(d: Dict, g: Graph) {
    && (forall key | key in d :: Inside(d[key], g) || (Joining(key) && d[key].Fresh?))
    && ("$ref" in d && d["$ref"].Text? ==> d["$ref"].text in Refs(g))
  }

  ghost predicate GraphClosed(g: Graph) {
    forall id | id in g :: forall key | key in g[id] :: Inside(g[id][key], g)
  }

  lemma KnownClosed(g: Graph, id: nat)
    requires GraphClosed(g) && id in g
    ensures Closed(g[id], g)
  {
  }

  lemma MergeClosed(g: Graph, base: Dict, overlay: Dict)
    requires Closed(base, g) && Closed(overlay, g)
    ensures Closed(Merge(g, base, overlay), g)
  {
    MergeKeepsRef(g, base, overlay);
    var m := Merge(g, base, overlay);
    forall key | key in m ensures Inside(m[key], g) || (Joining(key) && m[key].Fresh?) {
    }
  }

  function DictOf(g: Graph, s: Schema): Dict
    requires s.Known? ==> s.id in g
  {
    if s.Known? then g[s.id] else s.entries
  }

  ghost predicate SchemaClosed(s: Schema, g: Graph) {
    (s.Known? ==> s.id in g) && Closed(DictOf(g, s), g)
  }

  /** References not yet followed and dictionaries not yet entered. */
  ghost function Unseen(g: Graph, refs: set<string>, nodes: set<nat>): nat {
    |Refs(g) - refs| + |g.Keys - nodes|
  }

  lemma SeeRef(g: Graph, refs: set<string>, nodes: set<nat>, ref: string)
    requires ref in Refs(g) && ref !in refs
    ensures Unseen(g, refs + {ref}, nodes) < Unseen(g, refs, nodes)
  {
    assert Refs(g) - (refs + {ref}) == (Refs(g) - refs) - {ref};
  }

  lemma SeeNode(g: Graph, refs: set<string>, nodes: set<nat>, id: nat)
    requires id in g && id !in nodes
    ensures Unseen(g, refs, nodes + {id}) < Unseen(g, refs, nodes)
  {
    assert g.Keys - (nodes + {id}) == (g.Keys - nodes) - {id};
  }

  lemma {:induction false} EachClosed(g: Graph, schemas: seq<Dict>)
    requires forall i | 0 <= i < |schemas| :: Closed(schemas[i], g)
    ensures Closed(MergeEach(g, schemas), g)
    decreases |schemas|
  {
    if schemas != [] {
      EachClosed(g, schemas[..|schemas| - 1]);
      MergeClosed(g, MergeEach(g, schemas[..|schemas| - 1]), schemas[|schemas| - 1]);
    }
  }

  lemma {:induction false} AdditionalClosed(g: Graph, schemas: seq<Dict>)
    requires forall i | 0 <= i < |schemas| :: Closed(schemas[i], g)
    ensures Additional(schemas).Some? ==> Inside(Additional(schemas).value, g)
    decreases |schemas|
  {
    if schemas != [] {
      assert !Joining("additionalProperties");
      AdditionalClosed(g, schemas[..|schemas| - 1]);
    }
  }

  lemma AlternativesClosed(g: Graph, schemas: seq<Dict>)
    requires forall i | 0 <= i < |schemas| :: Closed(schemas[i], g)
    ensures Closed(MergeAlternatives(g, schemas), g)
  {
    EachClosed(g, schemas);
    AdditionalClosed(g, schemas);
  }

  lemma WithoutClosed(d: Dict, keys: set<string>, g: Graph)
    requires Closed(d, g)
    ensures Closed(d - keys, g)
  {
  }

  /******* Resolving *******/

  datatype Match = Matches | Unclear | Mismatches

  /** How deep the resolution can go: once through what is unseen, and once more from each match against the value. */
  ghost function Bound(context: Option<Context>, unseen: nat, made: bool): nat {
    var own := unseen + 1 + if made then 1 else 0;
    if context.None? then own else own + unseen + 2
  }

  function Max(a: nat, b: nat): nat {
    if a < b then b else a
  }

  function RefOf(d: Dict): Option<string> {
    if "$ref" in d && d["$ref"].Text? then Some(d["$ref"].text) else None
  }

  /** The schema behind the reference of this one, with what stands beside the reference merged in. */
  function FollowOnce(g: Graph, root: Option<nat>, s: Schema): (r: Option<Schema>)
    requires (s.Known? ==> s.id in g) && (root.Some? ==> root.value in g)
    ensures r.Some? ==> RefOf(DictOf(g, s)).Some? && (r.value.Known? ==> r.value.id in g)
  {
    var d := DictOf(g, s);
    var resolved := if RefOf(d).None? then None else ResolveRef(g, root, RefOf(d).value);
    if resolved.None? then None
    else if d - {"$ref"} == map[] then Some(Known(resolved.value))
    else Some(Made(Merge(g, g[resolved.value], d - {"$ref"})))
  }

  /** Following references with no record of those seen, so many times at most; None if that was not enough. */
  ghost function FollowFor(g: Graph, root: Option<nat>, s: Schema, fuel: nat): (r: Option<Schema>)
    requires (s.Known? ==> s.id in g) && (root.Some? ==> root.value in g)
    ensures r.Some? && r.value.Known? ==> r.value.id in g
    decreases fuel
  {
    if FollowOnce(g, root, s).None? then Some(s)
    else if fuel == 0 then None
    else FollowFor(g, root, FollowOnce(g, root, s).value, fuel - 1)
  }

  /** Where a reference leads from does not matter for the one after it. */
  lemma NextRef(g: Graph, root: Option<nat>, s: Schema, t: Schema)
    requires (s.Known? ==> s.id in g) && (t.Known? ==> t.id in g) && (root.Some? ==> root.value in g)
    requires RefOf(DictOf(g, s)) == RefOf(DictOf(g, t))
    ensures FollowOnce(g, root, s).Some? <==> FollowOnce(g, root, t).Some?
    ensures FollowOnce(g, root, s).Some? ==>
      RefOf(DictOf(g, FollowOnce(g, root, s).value)) == RefOf(DictOf(g, FollowOnce(g, root, t).value))
  {
    if FollowOnce(g, root, s).Some? {
      var base := g[ResolveRef(g, root, RefOf(DictOf(g, s)).value).value];
      MergeKeepsRef(g, base, DictOf(g, s) - {"$ref"});
      MergeKeepsRef(g, base, DictOf(g, t) - {"$ref"});
    }
  }

  /** Each of these schemas is behind the reference of the one before. */
  ghost predicate Trail(g: Graph, root: Option<nat>, trail: seq<Schema>) {
    && (root.Some? ==> root.value in g)
    && (forall k | 0 <= k < |trail| :: trail[k].Known? ==> trail[k].id in g)
    && forall k | 0 <= k < |trail| - 1 :: FollowOnce(g, root, trail[k]) == Some(trail[k + 1])
  }

  /** At the end of a trail where no reference leads on, following without a guard ends in the same schema. */
  lemma {:induction false} TrailEnds(g: Graph, root: Option<nat>, trail: seq<Schema>)
    requires Trail(g, root, trail) && trail != [] && FollowOnce(g, root, trail[|trail| - 1]).None?
    ensures FollowFor(g, root, trail[0], |trail| - 1) == Some(trail[|trail| - 1])
    decreases |trail|
  {
    hide FollowOnce;
    if |trail| > 1 {
      var rest := trail[1..];
      assert forall k | 0 <= k < |rest| :: rest[k] == trail[k + 1];
      forall k | 0 <= k < |rest| - 1 ensures FollowOnce(g, root, rest[k]) == Some(rest[k + 1]) {
        assert FollowOnce(g, root, trail[k + 1]) == Some(trail[k + 1 + 1]);
      }
      TrailEnds(g, root, rest);
    }
  }

  /** Once a reference on a trail repeats, following without a guard never ends. */
  lemma {:induction false} TrailRepeats(g: Graph, root: Option<nat>, trail: seq<Schema>, k: nat, j: nat, s: Schema,
                                        fuel: nat)
    requires Trail(g, root, trail) && k < |trail| - 1 && j < |trail| && (s.Known? ==> s.id in g)
    requires RefOf(DictOf(g, trail[|trail| - 1])) == RefOf(DictOf(g, trail[k]))
    requires RefOf(DictOf(g, s)) == RefOf(DictOf(g, trail[j]))
    ensures FollowFor(g, root, s, fuel).None?
    decreases fuel
  {
    hide FollowOnce, RefOf, DictOf;
    var i := if j == |trail| - 1 then k else j;
    assert FollowOnce(g, root, trail[i]) == Some(trail[i + 1]);
    NextRef(g, root, s, trail[i]);
    if fuel > 0 {
      TrailRepeats(g, root, trail, k, i + 1, FollowOnce(g, root, s).value, fuel - 1);
    }
  }

  /**
   Follows references until there is none, or `stop` when one repeats or leads nowhere. It changes nothing where
   following would end without a guard, and stops with a reference that still leads on exactly where that never ends.
   */
  method FollowRefs(g: Graph, root: Option<nat>, schema: Schema, seen: set<string>, ghost nodes: set<nat>)
    returns (current: Schema, refs: set<string>, stop: bool)
    requires GraphClosed(g) && SchemaClosed(schema, g) && (root.Some? ==> root.value in g)
    ensures SchemaClosed(current, g)
    ensures if refs == seen then current == schema else Unseen(g, refs, nodes) < Unseen(g, seen, nodes)
    ensures !stop ==> RefOf(DictOf(g, current)).None?
    ensures KeepsKeys(DictOf(g, schema), DictOf(g, current)) && KeepsTypes(DictOf(g, schema), DictOf(g, current))
    ensures RefOf(DictOf(g, schema)).None? ==> current == schema && refs == seen && !stop
    ensures seen == {} ==>
      if FollowOnce(g, root, current).Some? then forall fuel: nat :: FollowFor(g, root, schema, fuel).None?
      else exists fuel: nat :: FollowFor(g, root, schema, fuel) == Some(current)
  {
    hide FollowOnce, RefOf, FollowFor, Trail, Closed, ResolveRef, KeepsKeys, KeepsTypes;
    current, refs, stop := schema, seen, false;
    KeepsThrough(DictOf(g, schema), DictOf(g, schema), DictOf(g, schema));
    ghost var trail := [schema];
    StartTrail(g, root, schema, seen);
    while true
      invariant SchemaClosed(current, g) && !stop
      invariant if refs == seen then current == schema else Unseen(g, refs, nodes) < Unseen(g, seen, nodes)
      invariant Followed(g, root, schema, current, trail, seen, refs)
      invariant KeepsKeys(DictOf(g, schema), DictOf(g, current)) && KeepsTypes(DictOf(g, schema), DictOf(g, current))
      invariant RefOf(DictOf(g, schema)).None? ==> current == schema && refs == seen
      decreases Unseen(g, refs, nodes)
    {
      var next;
      next, stop := FollowNext(g, root, current, refs);
      if next.None? {
        FollowedGuard(g, root, schema, current, trail, seen, refs);
        return;
      }
      FollowedNext(g, root, schema, current, trail, seen, refs);
      SeeRef(g, refs, nodes, RefOf(DictOf(g, current)).value);
      KeepsThrough(DictOf(g, schema), DictOf(g, current), DictOf(g, next.value));
      trail := trail + [next.value];
      refs := refs + {RefOf(DictOf(g, current)).value};
      current := next.value;
    }
  }

  /** One turn of the loop: the schema behind the reference, unless it is one already seen or leads nowhere. */
  method FollowNext(g: Graph, root: Option<nat>, current: Schema, refs: set<string>)
    returns (next: Option<Schema>, stop: bool)
    requires GraphClosed(g) && SchemaClosed(current, g) && (root.Some? ==> root.value in g)
    ensures var ref := RefOf(DictOf(g, current));
      && (stop <==> ref.Some? && next.None?)
      && next == (if ref.Some? && ref.value in refs then None else FollowOnce(g, root, current))
      && (next.Some? ==> SchemaClosed(next.value, g) && ref.Some? && ref.value in Refs(g))
    ensures next.Some? ==>
      KeepsKeys(DictOf(g, current), DictOf(g, next.value)) && KeepsTypes(DictOf(g, current), DictOf(g, next.value))
  {
    var d := DictOf(g, current);
    if "$ref" !in d || !d["$ref"].Text? {
      return None, false;
    }
    var ref := d["$ref"].text;
    if ref in refs {
      return None, true;
    }
    var resolved := ResolveRef(g, root, ref);
    if resolved.None? {
      return None, true;
    }
    KnownClosed(g, resolved.value);
    var siblings := d - {"$ref"};
    WithoutClosed(d, {"$ref"}, g);
    MergeClosed(g, g[resolved.value], siblings);
    MergeKeeps(g, g[resolved.value], siblings);
    assert !Overriding("$ref");
    assert forall key | key in d && key != "$ref" :: key in siblings;
    next, stop := Some(if siblings != map[]
                       then Made(Merge(g, g[resolved.value], siblings)) else Known(resolved.value)), false;
  }

  /** The trail so far leads from one schema to the other, and its references are those seen on it. */
  ghost predicate Followed(g: Graph, root: Option<nat>, schema: Schema, current: Schema, trail: seq<Schema>,
                           seen: set<string>, refs: set<string>) {
    && Trail(g, root, trail) && trail != [] && trail[0] == schema && trail[|trail| - 1] == current
    && forall ref | ref in refs && ref !in seen :: exists k ::
      0 <= k < |trail| - 1 && RefOf(DictOf(g, trail[k])) == Some(ref)
  }

  lemma StartTrail(g: Graph, root: Option<nat>, schema: Schema, seen: set<string>)
    requires (schema.Known? ==> schema.id in g) && (root.Some? ==> root.value in g)
    ensures Followed(g, root, schema, schema, [schema], seen, seen)
  {
  }

  lemma FollowedNext(g: Graph, root: Option<nat>, schema: Schema, current: Schema, trail: seq<Schema>,
                     seen: set<string>, refs: set<string>)
    requires Followed(g, root, schema, current, trail, seen, refs)
    requires RefOf(DictOf(g, current)).Some? && FollowOnce(g, root, current).Some?
    ensures var next := FollowOnce(g, root, current).value;
      Followed(g, root, schema, next, trail + [next], seen, refs + {RefOf(DictOf(g, current)).value})
  {
    hide FollowOnce, RefOf, DictOf;
    var next := FollowOnce(g, root, current).value;
    var more, ref := trail + [next], RefOf(DictOf(g, current)).value;
    assert forall k | 0 <= k < |trail| :: more[k] == trail[k];
    forall other | other in refs + {ref} && other !in seen
      ensures exists k :: 0 <= k < |more| - 1 && RefOf(DictOf(g, more[k])) == Some(other)
    {
      if other == ref {
        assert RefOf(DictOf(g, more[|trail| - 1])) == Some(other);
      } else {
        var k :| 0 <= k < |trail| - 1 && RefOf(DictOf(g, trail[k])) == Some(other);
        assert more[k] == trail[k];
      }
    }
  }

  /** Where the guarded loop stops. */
  lemma FollowedGuard(g: Graph, root: Option<nat>, schema: Schema, current: Schema, trail: seq<Schema>,
                      seen: set<string>, refs: set<string>)
    requires Followed(g, root, schema, current, trail, seen, refs)
    requires FollowOnce(g, root, current).Some? ==>
      RefOf(DictOf(g, current)).Some? && RefOf(DictOf(g, current)).value in refs
    ensures seen == {} ==>
      if FollowOnce(g, root, current).Some? then forall fuel: nat :: FollowFor(g, root, schema, fuel).None?
      else exists fuel: nat :: FollowFor(g, root, schema, fuel) == Some(current)
  {
    hide FollowOnce, RefOf, DictOf, FollowFor;
    if seen == {} {
      if FollowOnce(g, root, current).Some? {
        var k :| 0 <= k < |trail| - 1 && RefOf(DictOf(g, trail[k])) == RefOf(DictOf(g, current));
        forall fuel: nat ensures FollowFor(g, root, schema, fuel).None? {
          TrailRepeats(g, root, trail, k, 0, schema, fuel);
        }
      } else {
        TrailEnds(g, root, trail);
      }
    }
  }

  /** The dictionaries among some values, each resolved, those that the value in hand contradicts left out. */
  method ResolveEach(g: Graph, root: Option<nat>, items: seq<Value>, context: Option<Context>, sift: bool,
                     refs: set<string>, nodes: set<nat>)
    returns (resolved: seq<Dict>, ghost depth: nat)
    requires GraphClosed(g) && (root.Some? ==> root.value in g) && forall i | 0 <= i < |items| :: Inside(items[i], g)
    ensures forall i | 0 <= i < |resolved| :: Closed(resolved[i], g)
    ensures !sift || context.None? ==> KeptByOne(g, items, resolved)
    ensures depth <= Max(Bound(context, Unseen(g, refs, nodes), false),
                         if context.Some? then Unseen(g, refs, nodes) + 2 else 0)
    decreases context.Some?, Unseen(g, refs, nodes), false, 2
  {
    hide KeepsKeys, KeepsTypes, Closed;
    resolved, depth := [], 0;
    for i := 0 to |items|
      invariant forall j | 0 <= j < |resolved| :: Closed(resolved[j], g)
      invariant !sift || context.None? ==> KeptByOne(g, items[..i], resolved)
      invariant depth <= Max(Bound(context, Unseen(g, refs, nodes), false),
                             if context.Some? then Unseen(g, refs, nodes) + 2 else 0)
    {
      if !items[i].Obj? {
        NotKept(g, items, i, resolved);
        continue;
      }
      KnownClosed(g, items[i].id);
      var one, below := ResolveNode(g, root, Known(items[i].id), context, refs, nodes);
      depth := Max(depth, below);
      if sift && context.Some? {
        var state, deep := MatchState(g, root, one, refs, nodes);
        depth := Max(depth, deep);
        if state == Mismatches {
          continue;
        }
      }
      if !sift || context.None? {
        OneMoreKept(g, items, i, resolved, DictOf(g, one));
      }
      resolved := resolved + [DictOf(g, one)];
    }
    assert items[..|items|] == items;
  }

  lemma NotKept(g: Graph, items: seq<Value>, i: nat, resolved: seq<Dict>)
    requires i < |items| && !items[i].Obj?
    ensures KeptByOne(g, items[..i], resolved) ==> KeptByOne(g, items[..i + 1], resolved)
  {
    hide KeepsKeys;
    assert forall k | 0 <= k < i :: items[..i + 1][k] == items[..i][k];
  }

  lemma OneMoreKept(g: Graph, items: seq<Value>, i: nat, resolved: seq<Dict>, one: Dict)
    requires i < |items| && items[i].Obj? && items[i].id in g && KeepsKeys(g[items[i].id], one)
    requires KeptByOne(g, items[..i], resolved)
    ensures KeptByOne(g, items[..i + 1], resolved + [one])
  {
    hide KeepsKeys;
    var more, all := resolved + [one], items[..i + 1];
    forall k | 0 <= k < |all| && all[k].Obj? && all[k].id in g
      ensures exists j :: 0 <= j < |more| && KeepsKeys(g[all[k].id], more[j])
    {
      if k < i {
        assert items[..i][k] == all[k];
        var j :| 0 <= j < |resolved| && KeepsKeys(g[all[k].id], resolved[j]);
        assert more[j] == resolved[j];
      } else {
        assert more[|resolved|] == one;
      }
    }
  }

  /** Whether a value matches a schema: resolved without the value, then up to the validator, which can say anything. */
  method MatchState(g: Graph, root: Option<nat>, schema: Schema, refs: set<string>, nodes: set<nat>)
    returns (m: Match, ghost depth: nat)
    requires GraphClosed(g) && SchemaClosed(schema, g) && (root.Some? ==> root.value in g)
    ensures depth <= Unseen(g, refs, nodes) + 2
    decreases false, Unseen(g, refs, nodes), true, 3
  {
    var node;
    node, depth := ResolveNode(g, root, schema, None, refs, nodes);
    m := *;
  }

  /** Merges in what is composed: all of the parts, or of the alternatives those that can still hold. */
  method Compose(g: Graph, root: Option<nat>, current: Schema, context: Option<Context>, refs: set<string>,
                 nodes: set<nat>)
    returns (r: Schema, ghost depth: nat)
    requires GraphClosed(g) && SchemaClosed(current, g) && (root.Some? ==> root.value in g)
    ensures SchemaClosed(r, g)
    ensures KeepsKeys(DictOf(g, current), DictOf(g, r)) && KeepsTypes(DictOf(g, current), DictOf(g, r))
    ensures PartsKept(g, DictOf(g, current), context, DictOf(g, r))
    ensures !Composed(DictOf(g, current)) ==> r == current
    ensures depth <= Max(Bound(context, Unseen(g, refs, nodes), false),
                         if context.Some? then Unseen(g, refs, nodes) + 2 else 0)
    decreases context.Some?, Unseen(g, refs, nodes), false, 3
  {
    hide KeepsKeys, KeepsTypes, Closed, Merge, KeptByOne, KeepsAll, ComposedOf, Composed, GraphClosed, Inside;
    var d := DictOf(g, current);
    KeepsThrough(d, d, d);
    PartsListed(d);
    NothingComposed(g, d, context, d);
    var siblings := d - {"allOf", "anyOf", "oneOf"};
    WithoutClosed(d, {"allOf", "anyOf", "oneOf"}, g);
    r, depth := current, 0;
    if "allOf" in d && d["allOf"].Items? {
      ValueInside(g, d, "allOf");
      var parts;
      parts, depth := ResolveEach(g, root, d["allOf"].items, context, false, refs, nodes);
      EachClosed(g, parts);
      MergeClosed(g, MergeEach(g, parts), siblings);
      r := Made(Merge(g, MergeEach(g, parts), siblings));
      MergeKeeps(g, MergeEach(g, parts), siblings);
      SiblingsKept(d, DictOf(g, r));
      AllKept(g, d["allOf"].items, parts, siblings);
      return;
    }
    var key := if "anyOf" in d && d["anyOf"].Items? then "anyOf" else "oneOf";
    if key in d && d[key].Items? {
      assert !Joining(key);
      ValueInside(g, d, key);
      var alternatives;
      alternatives, depth := ResolveEach(g, root, d[key].items, context, true, refs, nodes);
      if alternatives != [] {
        AlternativesClosed(g, alternatives);
        MergeClosed(g, MergeAlternatives(g, alternatives), siblings);
        r := Made(Merge(g, MergeAlternatives(g, alternatives), siblings));
        MergeKeeps(g, MergeAlternatives(g, alternatives), siblings);
        SiblingsKept(d, DictOf(g, r));
      }
      if context.None? {
        AllKept(g, d[key].items, alternatives, siblings);
        if alternatives == [] {
          NoneToKeep(g, d[key].items, alternatives, d);
        }
      }
    }
  }

  /** Merges in the schemas that depend on a key of the value. */
  method MergeDependents(g: Graph, root: Option<nat>, current: Schema, keys: set<string>, refs: set<string>,
                         nodes: set<nat>)
    returns (r: Schema, ghost depth: nat)
    requires GraphClosed(g) && SchemaClosed(current, g) && (root.Some? ==> root.value in g)
    ensures SchemaClosed(r, g)
    ensures KeepsKeys(DictOf(g, current), DictOf(g, r))
    ensures !("dependentSchemas" in DictOf(g, current) && DictOf(g, current)["dependentSchemas"].Obj?) ==> r == current
    ensures depth <= Bound(Some(Keys(keys)), Unseen(g, refs, nodes), false)
    decreases true, Unseen(g, refs, nodes), false, 2
  {
    hide KeepsKeys, KeepsTypes, Closed, Merge;
    r, depth := current, 0;
    KeepsThrough(DictOf(g, current), DictOf(g, current), DictOf(g, current));
    var d := DictOf(g, current);
    if "dependentSchemas" in d && d["dependentSchemas"].Obj? {
      assert !Joining("dependentSchemas");
      ValueInside(g, d, "dependentSchemas");
      var dependents := g[d["dependentSchemas"].id];
      var todo := dependents.Keys * keys;
      while todo != {}
        invariant SchemaClosed(r, g) && todo <= dependents.Keys
        invariant KeepsKeys(DictOf(g, current), DictOf(g, r))
        invariant depth <= Bound(Some(Keys(keys)), Unseen(g, refs, nodes), false)
        decreases todo
      {
        var key :| key in todo;
        todo := todo - {key};
        if dependents[key].Obj? {
          KnownClosed(g, dependents[key].id);
          var one, below := ResolveNode(g, root, Known(dependents[key].id), Some(Keys(keys)), refs, nodes);
          depth := Max(depth, below);
          MergeClosed(g, DictOf(g, r), DictOf(g, one));
          MergeKeeps(g, DictOf(g, r), DictOf(g, one));
          KeepsThrough(DictOf(g, current), DictOf(g, r), Merge(g, DictOf(g, r), DictOf(g, one)));
          r := Made(Merge(g, DictOf(g, r), DictOf(g, one)));
        }
      }
    }
  }

  /** Merges in the branch that the condition selects. */
  method MergeBranch(g: Graph, root: Option<nat>, current: Schema, keys: set<string>, refs: set<string>,
                     nodes: set<nat>)
    returns (r: Schema, ghost depth: nat)
    requires GraphClosed(g) && SchemaClosed(current, g) && (root.Some? ==> root.value in g)
    ensures SchemaClosed(r, g)
    ensures KeepsKeys(DictOf(g, current), DictOf(g, r))
    ensures !("if" in DictOf(g, current) && DictOf(g, current)["if"].Obj?) ==> r == current
    ensures depth <= Max(Bound(Some(Keys(keys)), Unseen(g, refs, nodes), false), Unseen(g, refs, nodes) + 2)
    decreases true, Unseen(g, refs, nodes), false, 2
  {
    hide KeepsKeys, KeepsTypes, Merge;
    r, depth := current, 0;
    KeepsThrough(DictOf(g, current), DictOf(g, current), DictOf(g, current));
    var d := DictOf(g, current);
    assert !Joining("if") && !Joining("then") && !Joining("else");
    if "if" in d && d["if"].Obj? {
      KnownClosed(g, d["if"].id);
      var state;
      state, depth := MatchState(g, root, Known(d["if"].id), refs, nodes);
      var key := if state == Matches then "then" else "else";
      if state != Unclear && key in d && d[key].Obj? {
        KnownClosed(g, d[key].id);
        var one, below := ResolveNode(g, root, Known(d[key].id), Some(Keys(keys)), refs, nodes);
        depth := Max(depth, below);
        MergeClosed(g, d, DictOf(g, one));
        MergeKeeps(g, d, DictOf(g, one));
        r := Made(Merge(g, d, DictOf(g, one)));
      }
    }
  }

  /** What the node is composed of, and then what a dictionary in hand adds. */
  method ComposeAndBranch(g: Graph, root: Option<nat>, current: Schema, context: Option<Context>, refs: set<string>,
                          nodes: set<nat>)
    returns (r: Schema, ghost depth: nat)
    requires GraphClosed(g) && SchemaClosed(current, g) && (root.Some? ==> root.value in g)
    ensures SchemaClosed(r, g)
    ensures KeepsKeys(DictOf(g, current), DictOf(g, r)) && PartsKept(g, DictOf(g, current), context, DictOf(g, r))
    ensures context.None? || context.value.Plain? ==> KeepsTypes(DictOf(g, current), DictOf(g, r))
    ensures Plainly(DictOf(g, current), context) ==> r == current
    ensures depth <= Max(Bound(context, Unseen(g, refs, nodes), false),
                         if context.Some? then Unseen(g, refs, nodes) + 2 else 0)
    decreases context.Some?, Unseen(g, refs, nodes), false, 4
  {
    hide GraphClosed, Unseen, Closed, KeepsKeys, KeepsTypes, KeepsAll, ComposedOf, Composed;
    r, depth := Compose(g, root, current, context, refs, nodes);
    if context.Some? && context.value.Keys? {
      ghost var deeper, deepest;
      ghost var composed := r;
      r, deeper := MergeDependents(g, root, r, context.value.keys, refs, nodes);
      ghost var extended := r;
      r, deepest := MergeBranch(g, root, r, context.value.keys, refs, nodes);
      KeepsThrough(DictOf(g, composed), DictOf(g, extended), DictOf(g, r));
      KeepsThrough(DictOf(g, current), DictOf(g, composed), DictOf(g, r));
      if KeepsAll(g, ComposedOf(DictOf(g, current)), DictOf(g, composed)) {
        KeepsAllThrough(g, ComposedOf(DictOf(g, current)), DictOf(g, composed), DictOf(g, r));
      }
      depth := Max(depth, Max(deeper, deepest));
    }
  }

  /**
   _resolve_schema_node: comes to an end on every graph, however it refers to or contains itself. What is seen
   grows with each call, except once into a dictionary that merging made; a match forgets the value. Of the node no
   keyword is lost but the reference and what it is composed of, and with no dictionary in hand its types stay; nothing
   is lost of the parts it is composed of; and a node with nothing to follow or merge comes back as it is.
   */
  method ResolveNode(g: Graph, root: Option<nat>, schema: Schema, context: Option<Context>, seenRefs: set<string>,
                     seenNodes: set<nat>)
    returns (r: Schema, ghost depth: nat)
    requires GraphClosed(g) && SchemaClosed(schema, g) && (root.Some? ==> root.value in g)
    ensures SchemaClosed(r, g)
    ensures depth <= Bound(context, Unseen(g, seenRefs, seenNodes), schema.Made?)
    ensures KeepsKeys(DictOf(g, schema), DictOf(g, r))
    ensures context.None? || context.value.Plain? ==> KeepsTypes(DictOf(g, schema), DictOf(g, r))
    ensures RefOf(DictOf(g, schema)).None? && (schema.Known? ==> schema.id !in seenNodes) ==>
      PartsKept(g, DictOf(g, schema), context, DictOf(g, r))
    ensures RefOf(DictOf(g, schema)).None? && Plainly(DictOf(g, schema), context) ==> r == schema
    decreases context.Some?, Unseen(g, seenRefs, seenNodes), schema.Made?, 1
  {
    hide KeepsKeys, KeepsTypes, PartsKept, Plainly, RefOf, Closed;
    var current, refs, stop := FollowRefs(g, root, schema, seenRefs, seenNodes);
    if stop {
      return current, 1;
    }
    var nodes := seenNodes;
    if current.Known? {
      if current.id in seenNodes {
        return current, 1;
      }
      SeeNode(g, refs, seenNodes, current.id);
      nodes := seenNodes + {current.id};
    }
    ghost var deep;
    r, deep := ComposeAndBranch(g, root, current, context, refs, nodes);
    KeepsThrough(DictOf(g, schema), DictOf(g, current), DictOf(g, r));
    depth := 1 + deep;
  }

  /******* Both guards are needed *******/

  /** A dictionary that refers to itself: without the references seen, no number of steps is enough. */
  lemma {:induction false} RefGuardNeeded(fuel: nat)
    ensures var g: Graph := map[0 := map["$ref" := Text("#")]];
      && GraphClosed(g) && "$ref" in g[0] && ResolveRef(g, Some(0), g[0]["$ref"].text) == Some(0)
      && FollowFor(g, Some(0), Known(0), fuel).None?
    decreases fuel
  {
    var g: Graph := map[0 := map["$ref" := Text("#")]];
    assert g[0] - {"$ref"} == map[];
    assert FollowOnce(g, Some(0), Known(0)) == Some(Known(0));
    if fuel > 0 {
      RefGuardNeeded(fuel - 1);
    }
  }

  /** Resolution without either guard and with no value in hand ends within this depth. */
  ghost predicate EndsWithin(g: Graph, root: Option<nat>, s: Schema, fuel: nat)
    requires root.Some? ==> root.value in g
    decreases fuel
  {
    && fuel > 0 && (s.Known? ==> s.id in g) && FollowFor(g, root, s, fuel).Some?
    && var items := ComposedOf(DictOf(g, FollowFor(g, root, s, fuel).value));
       forall i | 0 <= i < |items| && items[i].Obj? :: EndsWithin(g, root, Known(items[i].id), fuel - 1)
  }

  /** A way down through dictionaries composed of each other. */
  predicate Descends(g: Graph, path: seq<nat>) {
    && (forall i | 0 <= i < |path| ::
        path[i] in g && "$ref" !in g[path[i]] && "allOf" in g[path[i]] && g[path[i]]["allOf"].Items?)
    && forall i | 0 <= i < |path| - 1 :: Obj(path[i + 1]) in g[path[i]]["allOf"].items
  }

  /** Without the dictionaries seen, resolution goes as deep as there is a way down. */
  lemma {:induction false} DescentIsDeep(g: Graph, root: Option<nat>, path: seq<nat>, fuel: nat)
    requires (root.Some? ==> root.value in g) && Descends(g, path) && fuel < |path|
    ensures !EndsWithin(g, root, Known(path[0]), fuel)
    decreases fuel
  {
    if fuel > 0 {
      var rest := path[1..];
      assert forall i | 0 <= i < |rest| :: rest[i] == path[i + 1];
      DescentIsDeep(g, root, rest, fuel - 1);
      var items := g[path[0]]["allOf"].items;
      assert Obj(path[1]) in items;
      var i :| 0 <= i < |items| && items[i] == Obj(path[1]);
      assert FollowFor(g, root, Known(path[0]), fuel) == Some(Known(path[0]));
      assert ComposedOf(DictOf(g, Known(path[0]))) == items && items[i].Obj?;
      assert !EndsWithin(g, root, Known(items[i].id), fuel - 1);
    }
  }

  /**
   A dictionary composed of itself: without the dictionaries seen, there is a way down of every length, and no end.
   */
  lemma NodeGuardNeeded(n: nat)
    ensures var g: Graph := map[0 := map["allOf" := Items([Obj(0)])]];
      && GraphClosed(g) && (exists path :: |path| == n && Descends(g, path))
      && !EndsWithin(g, Some(0), Known(0), n)
  {
    var g: Graph := map[0 := map["allOf" := Items([Obj(0)])]];
    var path, longer := seq(n, i => 0), seq(n + 1, i => 0);
    assert Obj(0) in g[0]["allOf"].items by { assert g[0]["allOf"].items[0] == Obj(0); }
    assert Inside(g[0]["allOf"].items[0], g);
    assert Descends(g, path) && Descends(g, longer);
    DescentIsDeep(g, Some(0), longer, n);
  }
}
