/**
 Configuration overlays: a request binds axes to values and so selects branches, some of which have overlays
 of their own. The enumeration of requests is exact: one for each thing that can be selected.
 */
module Overlays {
  import opened Wrappers

  /** Dictionaries, in the order of their sorted keys. */
  datatype Overlay = Overlay(axes: seq<Axis>)
  datatype Axis = Axis(name: string, branches: seq<Branch>)
  datatype Branch = Branch(value: string, nested: Overlay)

  type Request = map<string, string>
  datatype Binding = Binding(axis: string, value: string)
  datatype Choice = Choice(axis: string, branch: Branch)
  type Path = seq<Binding>

  function Depth(o: Overlay): nat
    decreases o, 0
  {
    1 + AxesDepth(o.axes)
  }

  function AxesDepth(axes: seq<Axis>): nat
    decreases axes, 0
  {
    if axes == [] then 0
    else
      var d, e := BranchesDepth(axes[0].branches), AxesDepth(axes[1..]);
      if d > e then d else e
  }

  function BranchesDepth(bs: seq<Branch>): nat
    decreases bs, 0
  {
    if bs == [] then 0
    else
      var d, e := Depth(bs[0].nested), BranchesDepth(bs[1..]);
      if d > e then d else e
  }

  predicate DistinctAxes(axes: seq<Axis>) {
    forall i, j :: 0 <= i < j < |axes| ==> axes[i].name != axes[j].name
  }

  predicate DistinctValues(bs: seq<Branch>) {
    forall i, j :: 0 <= i < j < |bs| ==> bs[i].value != bs[j].value
  }

  /** Dictionaries have each key once. */
  predicate WellFormed(o: Overlay)
    decreases o
  {
    && DistinctAxes(o.axes)
    && forall i | 0 <= i < |o.axes| ::
         DistinctValues(o.axes[i].branches) && forall j | 0 <= j < |o.axes[i].branches| ::
           WellFormed(o.axes[i].branches[j].nested)
  }

  /** The choice is one of these axes' branches. */
  predicate Offered(c: Choice, axes: seq<Axis>) {
    exists i, j :: 0 <= i < |axes| && 0 <= j < |axes[i].branches| && c == Choice(axes[i].name, axes[i].branches[j])
  }

  lemma BranchShallower(bs: seq<Branch>, j: nat)
    requires j < |bs|
    ensures Depth(bs[j].nested) <= BranchesDepth(bs)
  {
    if j > 0 {
      BranchShallower(bs[1..], j - 1);
    }
  }

  lemma OfferedShallower(c: Choice, axes: seq<Axis>)
    requires Offered(c, axes)
    ensures Depth(c.branch.nested) <= AxesDepth(axes)
  {
    var i, j :| 0 <= i < |axes| && 0 <= j < |axes[i].branches| && c == Choice(axes[i].name, axes[i].branches[j]);
    BranchShallower(axes[i].branches, j);
    AxisShallower(axes, i);
  }

  lemma AxisShallower(axes: seq<Axis>, i: nat)
    requires i < |axes|
    ensures BranchesDepth(axes[i].branches) <= AxesDepth(axes)
  {
    if i > 0 {
      AxisShallower(axes[1..], i - 1);
    }
  }

  lemma OfferedWellFormed(c: Choice, o: Overlay)
    requires WellFormed(o) && Offered(c, o.axes)
    ensures WellFormed(c.branch.nested)
  {
  }

  /******* What a request selects *******/

  function FindBranch(bs: seq<Branch>, value: string): (b: Option<Branch>)
    ensures b.Some? ==> b.value in bs && b.value.value == value
    ensures b.None? ==> forall j | 0 <= j < |bs| :: bs[j].value != value
  {
    if bs == [] then None else if bs[0].value == value then Some(bs[0]) else FindBranch(bs[1..], value)
  }

  /** The branches a request picks at one level. */
  function Picked(r: Request, axes: seq<Axis>): (cs: seq<Choice>)
    ensures forall c | c in cs :: Offered(c, axes) && c.axis in r && r[c.axis] == c.branch.value
  {
    if axes == [] then []
    else
      var rest := Picked(r, axes[1..]);
      assert forall c | c in rest :: Offered(c, axes) by { OfferedLater(rest, axes); }
      var name := axes[0].name;
      if name !in r || FindBranch(axes[0].branches, r[name]).None? then rest
      else
        var b := FindBranch(axes[0].branches, r[name]).value;
        assert Offered(Choice(name, b), axes) by {
          var j :| 0 <= j < |axes[0].branches| && axes[0].branches[j] == b;
        }
        [Choice(name, b)] + rest
  }

  lemma OfferedLater(cs: seq<Choice>, axes: seq<Axis>)
    requires axes != [] && forall c | c in cs :: Offered(c, axes[1..])
    ensures forall c | c in cs :: Offered(c, axes)
  {
    forall c | c in cs ensures Offered(c, axes) {
      var i, j :| 0 <= i < |axes[1..]| && 0 <= j < |axes[1..][i].branches|
        && c == Choice(axes[1..][i].name, axes[1..][i].branches[j]);
      assert axes[i + 1] == axes[1..][i];
    }
  }

  function Bound(c: Choice): Binding {
    Binding(c.axis, c.branch.value)
  }

  function Heads(cs: seq<Choice>, prefix: Path): (paths: seq<Path>)
    ensures |paths| == |cs| && forall i | 0 <= i < |cs| :: paths[i] == prefix + [Bound(cs[i])]
  {
    seq(|cs|, i requires 0 <= i < |cs| => prefix + [Bound(cs[i])])
  }

  /** collect: the paths of the branches picked here, then those below each of them. */
  function Collect(r: Request, o: Overlay, prefix: Path): seq<Path>
    decreases Depth(o), 1, 0
  {
    var cs := Picked(r, o.axes);
    Heads(cs, prefix) + CollectBelow(r, o, cs, prefix)
  }

  function CollectBelow(r: Request, o: Overlay, cs: seq<Choice>, prefix: Path): seq<Path>
    requires forall c | c in cs :: Offered(c, o.axes)
    decreases Depth(o), 0, |cs|
  {
    if cs == [] then []
    else
      OfferedShallower(cs[0], o.axes);
      Collect(r, cs[0].branch.nested, prefix + [Bound(cs[0])]) + CollectBelow(r, o, cs[1..], prefix)
  }

  /** The bindings that select something, here or below. */
  ghost function Used(r: Request, o: Overlay): set<Binding>
    decreases Depth(o), 1, 0
  {
    UsedBy(r, o, Picked(r, o.axes))
  }

  ghost function UsedBy(r: Request, o: Overlay, cs: seq<Choice>): set<Binding>
    requires forall c | c in cs :: Offered(c, o.axes)
    decreases Depth(o), 0, |cs|
  {
    if cs == [] then {}
    else
      var last := cs[|cs| - 1];
      OfferedShallower(last, o.axes);
      UsedBy(r, o, cs[..|cs| - 1]) + {Bound(last)} + Used(r, last.branch.nested)
  }

  /******* The enumeration *******/

  /** _merge_requests */
  function Merge(left: Request, right: Request): Option<Request> {
    if exists k :: k in right && k in left && left[k] != right[k] then None else Some(left + right)
  }

  function MergeAll(left: Request, rights: seq<Request>): seq<Request> {
    if rights == [] then []
    else
      var front, m := MergeAll(left, rights[..|rights| - 1]), Merge(left, rights[|rights| - 1]);
      if m.Some? then front + [m.value] else front
  }

  /** One of the variants, bound for the choice, with each of the requests for what is below it. */
  function Onto(v: Request, c: Choice, nested: seq<Request>): seq<Request> {
    match Merge(v, map[c.axis := c.branch.value])
    case Some(base) => MergeAll(base, nested)
    case None => []
  }

  function Extend(variants: seq<Request>, c: Choice, nested: seq<Request>): seq<Request> {
    if variants == [] then []
      else Extend(variants[..|variants| - 1], c, nested) + Onto(variants[|variants| - 1], c, nested)
  }

  /** product: every way to choose on each axis a branch or none, the branches chosen. */
  function Choices(axes: seq<Axis>): (all: seq<seq<Choice>>)
    ensures forall cs, c | cs in all && c in cs :: Offered(c, axes)
  {
    if axes == [] then [[]]
    else
      var rest := Choices(axes[1..]);
      assert forall cs, c | cs in rest && c in cs :: Offered(c, axes) by {
        forall cs | cs in rest ensures forall c | c in cs :: Offered(c, axes) { OfferedLater(cs, axes); }
      }
      rest + ChooseOn(axes, |axes[0].branches|, rest)
  }

  /** The choices with one of the first `n` branches of the first axis. */
  function ChooseOn(axes: seq<Axis>, n: nat, rest: seq<seq<Choice>>): (all: seq<seq<Choice>>)
    requires axes != [] && n <= |axes[0].branches| && forall cs, c | cs in rest && c in cs :: Offered(c, axes)
    ensures forall cs, c | cs in all && c in cs :: Offered(c, axes)
    decreases n
  {
    if n == 0 then []
    else
      var c := Choice(axes[0].name, axes[0].branches[n - 1]);
      ChooseOn(axes, n - 1, rest) + seq(|rest|, i requires 0 <= i < |rest| => [c] + rest[i])
  }

  /** The requests that bind what the choices need, with some request for the overlays of each branch. */
  function Variants(o: Overlay, cs: seq<Choice>): seq<Request>
    requires forall c | c in cs :: Offered(c, o.axes)
    decreases Depth(o), 0, |cs|
  {
    if cs == [] then [map[]]
    else
      var last := cs[|cs| - 1];
      OfferedShallower(last, o.axes);
      Extend(Variants(o, cs[..|cs| - 1]), last, Reachable(last.branch.nested))
  }

  function AllVariants(o: Overlay, choices: seq<seq<Choice>>): seq<Request>
    requires forall cs, c | cs in choices && c in cs :: Offered(c, o.axes)
    decreases Depth(o), 1, |choices|
  {
    if choices == [] then [] else AllVariants(o, choices[..|choices| - 1]) + Variants(o, choices[|choices| - 1])
  }

  /** _reachable_requests, before duplicates are dropped. */
  function Reachable(o: Overlay): seq<Request>
    decreases Depth(o), 2, 0
  {
    [map[]] + AllVariants(o, Choices(o.axes))
  }

  /******* Merging *******/

  ghost predicate Sub(a: Request, b: Request) {
    forall k | k in a :: k in b && a[k] == b[k]
  }

  /** What merges agrees, and the merge binds what either does. */
  lemma Merged(a: Request, b: Request)
    ensures Merge(a, b).Some? ==> Merge(a, b).value == a + b && Sub(a, a + b) && Sub(b, a + b)
  {
  }

  lemma Merges(a: Request, b: Request, r: Request)
    requires Sub(a, r) && Sub(b, r)
    ensures Merge(a, b) == Some(a + b) && Sub(a + b, r)
  {
  }

  lemma {:induction false} MergedAll(left: Request, rights: seq<Request>, m: Request)
    ensures m in MergeAll(left, rights) <==> exists n :: n in rights && Merge(left, n) == Some(m)
    decreases |rights|
  {
    if rights != [] {
      var front, last := rights[..|rights| - 1], rights[|rights| - 1];
      MergedAll(left, front, m);
      assert rights == front + [last];
    }
  }

  lemma {:induction false} Extended(variants: seq<Request>, c: Choice, nested: seq<Request>, m: Request)
    ensures m in Extend(variants, c, nested) <==> exists v :: v in variants && m in Onto(v, c, nested)
    decreases |variants|
  {
    if variants != [] {
      var front, last := variants[..|variants| - 1], variants[|variants| - 1];
      Extended(front, c, nested, m);
      assert variants == front + [last];
    }
  }

  lemma OntoParts(v: Request, c: Choice, nested: seq<Request>, m: Request) returns (n: Request)
    requires m in Onto(v, c, nested)
    ensures n in nested && m == v + map[c.axis := c.branch.value] + n
    ensures Sub(v, m) && Sub(n, m) && c.axis in m && m[c.axis] == c.branch.value
  {
    var base := map[c.axis := c.branch.value];
    Merged(v, base);
    MergedAll(v + base, nested, m);
    n :| n in nested && Merge(v + base, n) == Some(m);
    Merged(v + base, n);
  }

  lemma OntoWhole(v: Request, c: Choice, nested: seq<Request>, n: Request, r: Request)
    requires n in nested && Sub(v, r) && Sub(n, r) && c.axis in r && r[c.axis] == c.branch.value
    ensures v + map[c.axis := c.branch.value] + n in Onto(v, c, nested)
  {
    var base := map[c.axis := c.branch.value];
    Merges(v, base, r);
    Merges(v + base, n, r);
    MergedAll(v + base, nested, v + base + n);
  }

  /******* What is picked *******/

  /** A choice is picked when the request binds it. */
  lemma PicksBound(r: Request, axes: seq<Axis>, c: Choice)
    requires DistinctAxes(axes) && (forall i | 0 <= i < |axes| :: DistinctValues(axes[i].branches))
    requires Offered(c, axes) && c.axis in r && r[c.axis] == c.branch.value
    ensures c in Picked(r, axes)
  {
    var i, j :| 0 <= i < |axes| && 0 <= j < |axes[i].branches| && c == Choice(axes[i].name, axes[i].branches[j]);
    PicksAt(r, axes, i, j);
  }

  lemma FindsBranch(bs: seq<Branch>, j: nat)
    requires DistinctValues(bs) && j < |bs|
    ensures FindBranch(bs, bs[j].value) == Some(bs[j])
  {
    if j > 0 {
      assert bs[0].value != bs[j].value;
      FindsBranch(bs[1..], j - 1);
    }
  }

  lemma PicksAt(r: Request, axes: seq<Axis>, i: nat, j: nat)
    requires DistinctAxes(axes) && (forall i | 0 <= i < |axes| :: DistinctValues(axes[i].branches))
    requires i < |axes| && j < |axes[i].branches| && axes[i].name in r && r[axes[i].name] == axes[i].branches[j].value
    ensures Choice(axes[i].name, axes[i].branches[j]) in Picked(r, axes)
  {
    if i == 0 {
      FindsBranch(axes[0].branches, j);
    } else {
      assert axes[1..][i - 1] == axes[i];
      PicksAt(r, axes[1..], i - 1, j);
    }
  }

  /** A request that keeps what another one's picks need, and binds nothing else, picks the same. */
  lemma {:induction false} PickedSame(r: Request, s: Request, axes: seq<Axis>)
    requires Sub(s, r) && forall c | c in Picked(r, axes) :: c.axis in s && s[c.axis] == c.branch.value
    ensures Picked(s, axes) == Picked(r, axes)
    decreases |axes|
  {
    if axes != [] {
      assert forall c | c in Picked(r, axes[1..]) :: c in Picked(r, axes);
      PickedSame(r, s, axes[1..]);
      var name := axes[0].name;
      if name in r && FindBranch(axes[0].branches, r[name]).Some? {
        assert Picked(r, axes)[0] == Choice(name, FindBranch(axes[0].branches, r[name]).value);
      }
    }
  }

  lemma {:induction false} PickedIsChoice(r: Request, axes: seq<Axis>)
    ensures Picked(r, axes) in Choices(axes)
    decreases |axes|
  {
    if axes != [] {
      var rest := Choices(axes[1..]);
      PickedIsChoice(r, axes[1..]);
      var name := axes[0].name;
      assert forall cs, c | cs in rest && c in cs :: Offered(c, axes) by {
        forall cs | cs in rest ensures forall c | c in cs :: Offered(c, axes) { OfferedLater(cs, axes); }
      }
      if name in r && FindBranch(axes[0].branches, r[name]).Some? {
        var b := FindBranch(axes[0].branches, r[name]).value;
        var j :| 0 <= j < |axes[0].branches| && axes[0].branches[j] == b;
        ChosenOn(axes, |axes[0].branches|, rest, j, Picked(r, axes[1..]));
      }
    }
  }

  lemma ChosenOn(axes: seq<Axis>, n: nat, rest: seq<seq<Choice>>, j: nat, cs: seq<Choice>)
    requires axes != [] && j < n <= |axes[0].branches| && (forall cs, c | cs in rest && c in cs :: Offered(c, axes))
      && cs in rest
    ensures [Choice(axes[0].name, axes[0].branches[j])] + cs in ChooseOn(axes, n, rest)
    decreases n
  {
    if j < n - 1 {
      ChosenOn(axes, n - 1, rest, j, cs);
    } else {
      var c := Choice(axes[0].name, axes[0].branches[j]);
      var last := seq(|rest|, i requires 0 <= i < |rest| => [c] + rest[i]);
      var i :| 0 <= i < |rest| && rest[i] == cs;
      assert last[i] == [c] + cs;
    }
  }

  /******* What is used *******/

  lemma {:induction false} UsedByEach(r: Request, o: Overlay, cs: seq<Choice>, b: Binding)
    requires forall c | c in cs :: Offered(c, o.axes)
    ensures b in UsedBy(r, o, cs) <==> exists c :: c in cs && (b == Bound(c) || b in Used(r, c.branch.nested))
    decreases |cs|
  {
    if cs != [] {
      var front, last := cs[..|cs| - 1], cs[|cs| - 1];
      UsedByEach(r, o, front, b);
      assert cs == front + [last];
    }
  }

  /** What is used is bound. */
  lemma {:induction false} UsedIsBound(r: Request, o: Overlay, b: Binding)
    requires b in Used(r, o)
    ensures b.axis in r && r[b.axis] == b.value
    decreases Depth(o)
  {
    var cs := Picked(r, o.axes);
    UsedByEach(r, o, cs, b);
    var c :| c in cs && (b == Bound(c) || b in Used(r, c.branch.nested));
    if b != Bound(c) {
      OfferedShallower(c, o.axes);
      UsedIsBound(r, c.branch.nested, b);
    }
  }

  /** A request that binds more uses no less. */
  lemma {:induction false} UsedMonotone(r: Request, s: Request, o: Overlay, b: Binding)
    requires WellFormed(o) && Sub(r, s) && b in Used(r, o)
    ensures b in Used(s, o)
    decreases Depth(o)
  {
    var cs := Picked(r, o.axes);
    UsedByEach(r, o, cs, b);
    var c :| c in cs && (b == Bound(c) || b in Used(r, c.branch.nested));
    PicksBound(s, o.axes, c);
    if b != Bound(c) {
      OfferedShallower(c, o.axes);
      OfferedWellFormed(c, o);
      UsedMonotone(r, s, c.branch.nested, b);
    }
    UsedByEach(s, o, Picked(s, o.axes), b);
  }

  /******* The enumeration is exact *******/

  /** Every binding of a request is used. */
  ghost predicate Tight(r: Request, o: Overlay) {
    forall k | k in r :: Binding(k, r[k]) in Used(r, o)
  }

  lemma {:induction false} VariantsBind(o: Overlay, cs: seq<Choice>, v: Request)
    requires (forall c | c in cs :: Offered(c, o.axes)) && v in Variants(o, cs)
    ensures forall c | c in cs :: c.axis in v && v[c.axis] == c.branch.value
    decreases |cs|
  {
    hide Offered, Variants, Reachable;
    if cs != [] {
      var front, last := cs[..|cs| - 1], cs[|cs| - 1];
      var w, n := VariantParts(o, cs, v);
      VariantsBind(o, front, w);
      assert forall c | c in cs :: c in front || c == last;
    }
  }

  lemma {:induction false} VariantsTight(o: Overlay, cs: seq<Choice>, v: Request)
    requires WellFormed(o) && (forall c | c in cs :: Offered(c, o.axes)) && v in Variants(o, cs)
    ensures forall k | k in v :: BoundBy(v, o, cs, k)
    decreases Depth(o), 0, |cs|
  {
    hide Offered, Variants, Reachable, WellFormed, Sub, Tight, BoundBy;
    if cs != [] {
      var front, last := cs[..|cs| - 1], cs[|cs| - 1];
      OfferedShallower(last, o.axes);
      OfferedWellFormed(last, o);
      var w, n := VariantParts(o, cs, v);
      VariantsTight(o, front, w);
      ReachableTight(last.branch.nested, n);
      OntoTight(w, n, v, o, front, last);
      assert cs == front + [last];
    } else {
      NothingChosen(o, v);
    }
  }

  lemma NothingChosen(o: Overlay, v: Request)
    requires v in Variants(o, [])
    ensures v == map[]
  {
  }

  /** A variant is made of one for the choices before the last, and a request for what is below that. */
  lemma VariantParts(o: Overlay, cs: seq<Choice>, v: Request) returns (w: Request, n: Request)
    requires cs != [] && (forall c | c in cs :: Offered(c, o.axes)) && v in Variants(o, cs)
    ensures var last := cs[|cs| - 1];
      && w in Variants(o, cs[..|cs| - 1]) && n in Reachable(last.branch.nested)
      && v == w + map[last.axis := last.branch.value] + n
      && Sub(w, v) && Sub(n, v) && last.axis in v && v[last.axis] == last.branch.value
  {
    var front, last := cs[..|cs| - 1], cs[|cs| - 1];
    OfferedShallower(last, o.axes);
    var nested := Reachable(last.branch.nested);
    Extended(Variants(o, front), last, nested, v);
    w :| w in Variants(o, front) && v in Onto(w, last, nested);
    n := OntoParts(w, last, nested, v);
  }

  lemma OntoTight(w: Request, n: Request, v: Request, o: Overlay, front: seq<Choice>, last: Choice)
    requires WellFormed(o) && (forall c | c in front :: Offered(c, o.axes)) && Offered(last, o.axes)
    requires v == w + map[last.axis := last.branch.value] + n && Sub(w, v) && Sub(n, v)
    requires Tight(n, last.branch.nested) && forall k | k in w :: BoundBy(w, o, front, k)
    ensures forall k | k in v :: BoundBy(v, o, front + [last], k)
  {
    OfferedWellFormed(last, o);
    var cs := front + [last];
    forall k | k in v ensures BoundBy(v, o, cs, k) {
      if k in n {
        UsedMonotone(n, v, last.branch.nested, Binding(k, v[k]));
        BoundByOne(v, o, cs, k, last);
      } else if k == last.axis {
        BoundByOne(v, o, cs, k, last);
      } else {
        BoundByMore(w, v, o, front, cs, k);
      }
    }
  }

  /** This binding is one of the choices, or used by the overlays below one. */
  ghost predicate BoundBy(v: Request, o: Overlay, cs: seq<Choice>, k: string)
    requires k in v
  {
    exists c :: c in cs && (Binding(k, v[k]) == Bound(c) || Binding(k, v[k]) in Used(v, c.branch.nested))
  }

  lemma BoundByOne(v: Request, o: Overlay, cs: seq<Choice>, k: string, c: Choice)
    requires k in v && c in cs && (Binding(k, v[k]) == Bound(c) || Binding(k, v[k]) in Used(v, c.branch.nested))
    ensures BoundBy(v, o, cs, k)
  {
  }

  lemma BoundByMore(w: Request, v: Request, o: Overlay, front: seq<Choice>, cs: seq<Choice>, k: string)
    requires WellFormed(o) && (forall c | c in front :: c in cs && Offered(c, o.axes)) && Sub(w, v) && k in w
      && BoundBy(w, o, front, k)
    ensures BoundBy(v, o, cs, k)
  {
    var b := Binding(k, w[k]);
    var c :| c in front && (b == Bound(c) || b in Used(w, c.branch.nested));
    OfferedWellFormed(c, o);
    if b != Bound(c) {
      UsedMonotone(w, v, c.branch.nested, b);
    }
    BoundByOne(v, o, cs, k, c);
  }

  lemma {:induction false} InAllVariants(o: Overlay, choices: seq<seq<Choice>>, r: Request)
    requires forall cs, c | cs in choices && c in cs :: Offered(c, o.axes)
    ensures r in AllVariants(o, choices) <==> exists cs :: cs in choices && r in Variants(o, cs)
    decreases |choices|
  {
    hide Offered, Variants;
    if choices != [] {
      var front, last := choices[..|choices| - 1], choices[|choices| - 1];
      InAllVariants(o, front, r);
      assert choices == front + [last];
      if exists cs :: cs in choices && r in Variants(o, cs) {
        var cs :| cs in choices && r in Variants(o, cs);
        assert cs in front || cs == last;
      }
    }
  }

  /** Every binding of an enumerated request selects something. */
  lemma {:induction false} ReachableTight(o: Overlay, r: Request)
    requires WellFormed(o) && r in Reachable(o)
    ensures Tight(r, o)
    decreases Depth(o), 1
  {
    hide WellFormed, Variants, Offered;
    if r != map[] {
      InAllVariants(o, Choices(o.axes), r);
      var cs :| cs in Choices(o.axes) && r in Variants(o, cs);
      VariantsBind(o, cs, r);
      VariantsTight(o, cs, r);
      forall k | k in r ensures Binding(k, r[k]) in Used(r, o) {
        BoundIsUsed(o, cs, r, k);
      }
    }
  }

  lemma BoundIsUsed(o: Overlay, cs: seq<Choice>, r: Request, k: string)
    requires WellFormed(o) && k in r && BoundBy(r, o, cs, k)
    requires forall c | c in cs :: Offered(c, o.axes) && c.axis in r && r[c.axis] == c.branch.value
    ensures Binding(k, r[k]) in Used(r, o)
  {
    var b := Binding(k, r[k]);
    var c :| c in cs && (b == Bound(c) || b in Used(r, c.branch.nested));
    PicksBound(r, o.axes, c);
    UsedByEach(r, o, Picked(r, o.axes), b);
  }

  ghost function Restrict(r: Request, bs: set<Binding>): Request {
    map k | k in r && Binding(k, r[k]) in bs :: r[k]
  }

  lemma RestrictUnion(r: Request, a: set<Binding>, b: Binding, c: set<Binding>)
    requires b.axis in r && r[b.axis] == b.value
    ensures Restrict(r, a + {b} + c) == Restrict(r, a) + map[b.axis := b.value] + Restrict(r, c)
  {
  }

  lemma {:induction false} VariantsComplete(r: Request, o: Overlay, cs: seq<Choice>)
    requires WellFormed(o) && forall c | c in cs :: Offered(c, o.axes) && c.axis in r && r[c.axis] == c.branch.value
    ensures Restrict(r, UsedBy(r, o, cs)) in Variants(o, cs)
    decreases Depth(o), 0, |cs|
  {
    if cs == [] {
      assert Restrict(r, {}) == map[];
    } else {
      var front, last := cs[..|cs| - 1], cs[|cs| - 1];
      OfferedShallower(last, o.axes);
      OfferedWellFormed(last, o);
      VariantsComplete(r, o, front);
      ReachableComplete(r, last.branch.nested);
      var nested := Reachable(last.branch.nested);
      var v, n := Restrict(r, UsedBy(r, o, front)), Restrict(r, Used(r, last.branch.nested));
      OntoWhole(v, last, nested, n, r);
      var m := v + map[last.axis := last.branch.value] + n;
      Extended(Variants(o, front), last, nested, m);
      RestrictUnion(r, UsedBy(r, o, front), Bound(last), Used(r, last.branch.nested));
    }
  }

  /** The part of a request that it uses is enumerated. */
  lemma {:induction false} ReachableComplete(r: Request, o: Overlay)
    requires WellFormed(o)
    ensures Restrict(r, Used(r, o)) in Reachable(o)
    decreases Depth(o), 1
  {
    var cs := Picked(r, o.axes);
    VariantsComplete(r, o, cs);
    PickedIsChoice(r, o.axes);
    InAllVariants(o, Choices(o.axes), Restrict(r, Used(r, o)));
  }

  ghost predicate Keeps(s: Request, bs: set<Binding>) {
    forall b | b in bs :: b.axis in s && s[b.axis] == b.value
  }

  /** A request that keeps what another uses, and binds nothing else, selects the same. */
  lemma {:induction false} CollectSame(r: Request, s: Request, o: Overlay, prefix: Path)
    requires Sub(s, r) && Keeps(s, Used(r, o))
    ensures Collect(s, o, prefix) == Collect(r, o, prefix)
    decreases Depth(o), 1, 0
  {
    var cs := Picked(r, o.axes);
    UsedKept(r, s, o);
    PickedSame(r, s, o.axes);
    CollectBelowSame(r, s, o, cs, prefix);
  }

  lemma UsedKept(r: Request, s: Request, o: Overlay)
    requires Keeps(s, Used(r, o))
    ensures forall c | c in Picked(r, o.axes) :: c.axis in s && s[c.axis] == c.branch.value
    ensures forall c | c in Picked(r, o.axes) :: Keeps(s, Used(r, c.branch.nested))
  {
    var cs := Picked(r, o.axes);
    forall c | c in cs ensures c.axis in s && s[c.axis] == c.branch.value {
      UsedByEach(r, o, cs, Bound(c));
      assert Bound(c) in Used(r, o);
    }
    forall c | c in cs ensures Keeps(s, Used(r, c.branch.nested)) {
      forall b | b in Used(r, c.branch.nested) ensures b.axis in s && s[b.axis] == b.value {
        UsedByEach(r, o, cs, b);
      }
    }
  }

  lemma {:induction false} CollectBelowSame(r: Request, s: Request, o: Overlay, cs: seq<Choice>, prefix: Path)
    requires Sub(s, r) && forall c | c in cs :: Offered(c, o.axes)
    requires forall c | c in cs :: Keeps(s, Used(r, c.branch.nested))
    ensures CollectBelow(s, o, cs, prefix) == CollectBelow(r, o, cs, prefix)
    decreases Depth(o), 0, |cs|
  {
    if cs != [] {
      OfferedShallower(cs[0], o.axes);
      CollectSame(r, s, cs[0].branch.nested, prefix + [Bound(cs[0])]);
      CollectBelowSame(r, s, o, cs[1..], prefix);
    }
  }

  /** For every request some enumerated one is part of it and selects the same. */
  lemma SomeReachable(r: Request, o: Overlay) returns (s: Request)
    requires WellFormed(o)
    ensures s in Reachable(o) && Sub(s, r) && Collect(s, o, []) == Collect(r, o, [])
  {
    s := Restrict(r, Used(r, o));
    ReachableComplete(r, o);
    forall b | b in Used(r, o) ensures b.axis in s && s[b.axis] == b.value {
      UsedIsBound(r, o, b);
    }
    CollectSame(r, s, o, []);
  }

  /******* What is selected *******/

  /** The request binds the axis of a branch offered here to its value. */
  predicate Bids(r: Request, o: Overlay, c: Choice) {
    Offered(c, o.axes) && c.axis in r && r[c.axis] == c.branch.value
  }

  /** The path goes down the overlay along branches that the request binds its axes to. */
  ghost predicate Leads(r: Request, o: Overlay, path: Path)
    decreases |path|
  {
    path != [] && exists c ::
      Bids(r, o, c) && path[0] == Binding(c.axis, c.branch.value)
      && (|path| == 1 || Leads(r, c.branch.nested, path[1..]))
  }

  /** One branch that the path can go down by. */
  ghost predicate LeadsBy(r: Request, c: Choice, path: Path) {
    path != [] && path[0] == Bound(c) && (|path| == 1 || Leads(r, c.branch.nested, path[1..]))
  }

  lemma LeadsIff(r: Request, o: Overlay, path: Path)
    ensures Leads(r, o, path) <==> exists c :: Bids(r, o, c) && LeadsBy(r, c, path)
  {
    if Leads(r, o, path) {
      var c :| Bids(r, o, c) && path[0] == Binding(c.axis, c.branch.value)
        && (|path| == 1 || Leads(r, c.branch.nested, path[1..]));
      assert LeadsBy(r, c, path);
    }
    if c :| Bids(r, o, c) && LeadsBy(r, c, path) {
      assert path[0] == Binding(c.axis, c.branch.value);
    }
  }

  /** A branch is picked exactly when the request asks for it. */
  lemma {:induction false} PickedAll(r: Request, axes: seq<Axis>, c: Choice)
    requires DistinctAxes(axes) && forall i | 0 <= i < |axes| :: DistinctValues(axes[i].branches)
    ensures c in Picked(r, axes) <==> Offered(c, axes) && c.axis in r && r[c.axis] == c.branch.value
    decreases |axes|
  {
    if axes != [] {
      PickedAll(r, axes[1..], c);
      if Offered(c, axes) {
        var i, j :| 0 <= i < |axes| && 0 <= j < |axes[i].branches| && c == Choice(axes[i].name, axes[i].branches[j]);
        if i > 0 {
          assert axes[1..][i - 1] == axes[i];
          assert Offered(c, axes[1..]);
        }
      }
    }
  }

  /** What stands below the branches picked is what stands below one of them. */
  lemma {:induction false} BelowEach(r: Request, o: Overlay, cs: seq<Choice>, prefix: Path, p: Path)
    requires forall c | c in cs :: Offered(c, o.axes)
    ensures p in CollectBelow(r, o, cs, prefix) <==>
      exists c :: c in cs && p in Collect(r, c.branch.nested, prefix + [Bound(c)])
    decreases |cs|
  {
    hide Collect;
    if cs != [] {
      BelowEach(r, o, cs[1..], prefix, p);
      assert forall c | c in cs :: c == cs[0] || c in cs[1..];
    }
  }

  /** Exactly the paths that the request leads down are selected, each behind the prefix. */
  lemma {:induction false} CollectLeads(r: Request, o: Overlay, prefix: Path, p: Path)
    requires WellFormed(o)
    ensures p in Collect(r, o, prefix) <==>
      |p| > |prefix| && p[..|prefix|] == prefix && Leads(r, o, p[|prefix|..])
    decreases Depth(o)
  {
    hide Leads, LeadsBy, Depth, WellFormed;
    var cs := Picked(r, o.axes);
    forall c | c in cs ensures LeadsThrough(r, c, prefix, p) <==> InBranch(r, c, prefix, p) {
      PickedShallower(o, c);
      OfferedWellFormed(c, o);
      CollectLeads(r, c.branch.nested, prefix + [Bound(c)], p);
      ThroughBranch(r, c, prefix, p);
    }
    SelectedThrough(r, o, prefix, p);
  }

  /** Behind the prefix the path is the branch itself or leads on below it. */
  ghost predicate LeadsThrough(r: Request, c: Choice, prefix: Path, p: Path) {
    |p| > |prefix| && p[..|prefix|] == prefix && LeadsBy(r, c, p[|prefix|..])
  }

  ghost predicate InBranch(r: Request, c: Choice, prefix: Path, p: Path) {
    p == prefix + [Bound(c)] || p in Collect(r, c.branch.nested, prefix + [Bound(c)])
  }

  lemma PickedShallower(o: Overlay, c: Choice)
    requires Offered(c, o.axes)
    ensures Depth(c.branch.nested) < Depth(o)
  {
    OfferedShallower(c, o.axes);
  }

  lemma ThroughBranch(r: Request, c: Choice, prefix: Path, p: Path)
    requires var below := prefix + [Bound(c)];
      p in Collect(r, c.branch.nested, below) <==>
        |p| > |below| && p[..|below|] == below && Leads(r, c.branch.nested, p[|below|..])
    ensures LeadsThrough(r, c, prefix, p) <==> InBranch(r, c, prefix, p)
  {
    hide Collect, Leads;
    var below := prefix + [Bound(c)];
    if |p| > |prefix| {
      assert p[|prefix|..][1..] == p[|below|..];
      assert p[..|below|] == p[..|prefix|] + [p[|prefix|]];
      if |p| == |below| {
        assert p == p[..|below|];
      }
    }
  }

  /** A path is selected if it is, or is below, a branch that is picked. */
  lemma SelectedBy(r: Request, o: Overlay, prefix: Path, p: Path)
    ensures p in Collect(r, o, prefix) <==> exists c :: c in Picked(r, o.axes) && InBranch(r, c, prefix, p)
  {
    var cs := Picked(r, o.axes);
    BelowEach(r, o, cs, prefix, p);
    InHeads(cs, prefix, p);
    hide Collect, CollectBelow, Heads, Picked;
    SelectedHere(r, o, cs, prefix, p);
  }

  lemma SelectedHere(r: Request, o: Overlay, cs: seq<Choice>, prefix: Path, p: Path)
    requires cs == Picked(r, o.axes)
    requires p in CollectBelow(r, o, cs, prefix) <==>
      exists c :: c in cs && p in Collect(r, c.branch.nested, prefix + [Bound(c)])
    requires p in Heads(cs, prefix) <==> exists c :: c in cs && p == prefix + [Bound(c)]
    ensures p in Collect(r, o, prefix) <==> exists c :: c in cs && InBranch(r, c, prefix, p)
  {
    assert Collect(r, o, prefix) == Heads(cs, prefix) + CollectBelow(r, o, cs, prefix);
    hide Heads, CollectBelow, Picked, Collect;
    if c :| c in cs && p in Collect(r, c.branch.nested, prefix + [Bound(c)]) {
      assert InBranch(r, c, prefix, p);
    }
    if c :| c in cs && p == prefix + [Bound(c)] {
      assert InBranch(r, c, prefix, p);
    }
  }

  lemma InHeads(cs: seq<Choice>, prefix: Path, p: Path)
    ensures p in Heads(cs, prefix) <==> exists c :: c in cs && p == prefix + [Bound(c)]
  {
    if c :| c in cs && p == prefix + [Bound(c)] {
      var i :| 0 <= i < |cs| && cs[i] == c;
      assert Heads(cs, prefix)[i] == p;
    }
  }

  lemma SelectedThrough(r: Request, o: Overlay, prefix: Path, p: Path)
    requires WellFormed(o)
    requires forall c | c in Picked(r, o.axes) :: LeadsThrough(r, c, prefix, p) <==> InBranch(r, c, prefix, p)
    ensures p in Collect(r, o, prefix) <==>
      |p| > |prefix| && p[..|prefix|] == prefix && Leads(r, o, p[|prefix|..])
  {
    hide Leads, LeadsBy, WellFormed, Collect, InBranch, Picked, Bids;
    PickedBids(r, o);
    SelectedBy(r, o, prefix, p);
    if |p| > |prefix| && p[..|prefix|] == prefix {
      LeadsIff(r, o, p[|prefix|..]);
      if c :| Bids(r, o, c) && LeadsBy(r, c, p[|prefix|..]) {
        assert LeadsThrough(r, c, prefix, p);
      }
    }
  }

  lemma PickedBids(r: Request, o: Overlay)
    requires WellFormed(o)
    ensures forall c :: c in Picked(r, o.axes) <==> Bids(r, o, c)
  {
    forall c ensures c in Picked(r, o.axes) <==> Bids(r, o, c) {
      PickedAll(r, o.axes, c);
    }
  }

  /******* Different requests select differently *******/

  /** The bindings the paths end in. */
  ghost predicate EndsSome(paths: seq<Path>, b: Binding) {
    exists i :: 0 <= i < |paths| && paths[i] != [] && paths[i][|paths[i]| - 1] == b
  }

  lemma EndsEither(p: seq<Path>, q: seq<Path>, b: Binding)
    ensures EndsSome(p + q, b) <==> EndsSome(p, b) || EndsSome(q, b)
  {
    if EndsSome(q, b) {
      var i :| 0 <= i < |q| && q[i] != [] && q[i][|q[i]| - 1] == b;
      assert (p + q)[|p| + i] == q[i];
    }
    if EndsSome(p, b) {
      var i :| 0 <= i < |p| && p[i] != [] && p[i][|p[i]| - 1] == b;
      assert (p + q)[i] == p[i];
    }
  }

  lemma HeadsEnd(cs: seq<Choice>, prefix: Path, b: Binding)
    ensures EndsSome(Heads(cs, prefix), b) <==> exists c :: c in cs && b == Bound(c)
  {
    if exists c :: c in cs && b == Bound(c) {
      var c :| c in cs && b == Bound(c);
      var i :| 0 <= i < |cs| && cs[i] == c;
      assert Heads(cs, prefix)[i][|prefix|] == b;
    }
  }

  /** The selected paths end in the bindings used. */
  lemma {:induction false} UsedEnds(r: Request, o: Overlay, prefix: Path, b: Binding)
    ensures EndsSome(Collect(r, o, prefix), b) <==> b in Used(r, o)
    decreases Depth(o), 1, 0
  {
    var cs := Picked(r, o.axes);
    UsedByEach(r, o, cs, b);
    HeadsEnd(cs, prefix, b);
    BelowEnds(r, o, cs, prefix, b);
    EndsEither(Heads(cs, prefix), CollectBelow(r, o, cs, prefix), b);
  }

  lemma {:induction false} BelowEnds(r: Request, o: Overlay, cs: seq<Choice>, prefix: Path, b: Binding)
    requires forall c | c in cs :: Offered(c, o.axes)
    ensures EndsSome(CollectBelow(r, o, cs, prefix), b) <==> exists c :: c in cs && b in Used(r, c.branch.nested)
    decreases Depth(o), 0, |cs|
  {
    if cs != [] {
      OfferedShallower(cs[0], o.axes);
      var below := Collect(r, cs[0].branch.nested, prefix + [Bound(cs[0])]);
      UsedEnds(r, cs[0].branch.nested, prefix + [Bound(cs[0])], b);
      BelowEnds(r, o, cs[1..], prefix, b);
      EndsEither(below, CollectBelow(r, o, cs[1..], prefix), b);
      assert forall c | c in cs :: c == cs[0] || c in cs[1..];
    }
  }

  /** Two enumerated requests that select the same are the same. */
  lemma ReachableDiffer(o: Overlay, r: Request, s: Request)
    requires WellFormed(o) && r in Reachable(o) && s in Reachable(o) && Collect(r, o, []) == Collect(s, o, [])
    ensures r == s
  {
    TightSub(o, r, s);
    TightSub(o, s, r);
  }

  lemma TightSub(o: Overlay, r: Request, s: Request)
    requires WellFormed(o) && r in Reachable(o) && Collect(r, o, []) == Collect(s, o, [])
    ensures Sub(r, s)
  {
    ReachableTight(o, r);
    forall k | k in r ensures k in s && r[k] == s[k] {
      var b := Binding(k, r[k]);
      UsedEnds(r, o, [], b);
      UsedEnds(s, o, [], b);
      UsedIsBound(s, o, b);
    }
  }

  /******* As it is computed *******/

  method MergeRequests(left: Request, right: Request) returns (merged: Option<Request>)
    ensures merged == Merge(left, right)
  {
    var result := left;
    var keys := right.Keys;
    while keys != {}
      invariant keys <= right.Keys && result == left + (right - keys)
      invariant forall k | k in right && k !in keys && k in left :: left[k] == right[k]
      decreases keys
    {
      var key :| key in keys;
      if key in result && result[key] != right[key] {
        return None;
      }
      result := result[key := right[key]];
      keys := keys - {key};
    }
    assert right - {} == right;
    merged := Some(result);
  }

  /** All the variants for one way to choose. */
  method ChosenRequests(o: Overlay, cs: seq<Choice>) returns (variants: seq<Request>)
    requires forall c | c in cs :: Offered(c, o.axes)
    ensures forall r :: r in variants <==> r in Variants(o, cs)
    decreases Depth(o), 0
  {
    variants := [map[]];
    for i := 0 to |cs|
      invariant forall r :: r in variants <==> r in Variants(o, cs[..i])
    {
      OfferedShallower(cs[i], o.axes);
      assert cs[..i + 1][..i] == cs[..i];
      var nested := ReachableRequests(cs[i].branch.nested);
      var next := ExtendVariants(variants, cs[i], nested);
      SameExtension(variants, Variants(o, cs[..i]), cs[i], nested, Reachable(cs[i].branch.nested));
      variants := next;
    }
    assert cs[..|cs|] == cs;
  }

  method ExtendVariants(variants: seq<Request>, c: Choice, nested: seq<Request>) returns (next: seq<Request>)
    ensures next == Extend(variants, c, nested)
  {
    next := [];
    for i := 0 to |variants|
      invariant next == Extend(variants[..i], c, nested)
    {
      assert variants[..i + 1][..i] == variants[..i];
      var base := MergeRequests(variants[i], map[c.axis := c.branch.value]);
      if base.None? {
        continue;
      }
      ghost var before := next;
      for j := 0 to |nested|
        invariant next == before + MergeAll(base.value, nested[..j])
      {
        assert nested[..j + 1][..j] == nested[..j];
        var merged := MergeRequests(base.value, nested[j]);
        if merged.Some? {
          next := next + [merged.value];
        }
      }
      assert nested[..|nested|] == nested;
    }
    assert variants[..|variants|] == variants;
  }

  lemma SameExtension(p: seq<Request>, q: seq<Request>, c: Choice, m: seq<Request>, n: seq<Request>)
    requires (forall r :: r in p <==> r in q) && forall r :: r in m <==> r in n
    ensures forall r :: r in Extend(p, c, m) <==> r in Extend(q, c, n)
  {
    forall r ensures r in Extend(p, c, m) <==> r in Extend(q, c, n) {
      Extended(p, c, m, r);
      Extended(q, c, n, r);
      forall v ensures r in Onto(v, c, m) <==> r in Onto(v, c, n) {
        var base := Merge(v, map[c.axis := c.branch.value]);
        if base.Some? {
          MergedAll(base.value, m, r);
          MergedAll(base.value, n, r);
        }
      }
    }
  }

  /** _reachable_requests: the enumerated requests, each once. */
  method ReachableRequests(o: Overlay) returns (requests: seq<Request>)
    ensures forall r :: r in requests <==> r in Reachable(o)
    ensures forall i, j | 0 <= i < j < |requests| :: requests[i] != requests[j]
    decreases Depth(o), 1
  {
    requests := [map[]];
    var choices := Choices(o.axes);
    for i := 0 to |choices|
      invariant forall r :: r in requests <==> r in [map[]] + AllVariants(o, choices[..i])
      invariant forall i, j | 0 <= i < j < |requests| :: requests[i] != requests[j]
    {
      assert choices[..i + 1][..i] == choices[..i];
      ghost var before := requests;
      var variants := ChosenRequests(o, choices[i]);
      for j := 0 to |variants|
        invariant forall r :: r in requests <==> r in before || r in variants[..j]
        invariant forall i, j | 0 <= i < j < |requests| :: requests[i] != requests[j]
      {
        assert variants[..j + 1] == variants[..j] + [variants[j]];
        if variants[j] !in requests {
          requests := requests + [variants[j]];
        }
      }
      assert variants[..|variants|] == variants;
    }
    assert choices[..|choices|] == choices;
  }
}
