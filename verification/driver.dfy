/**
  reaction_completer/driver.py: the logic around the balancing engine. The engine
  itself (`MaterialInformation`'s constructor, `ReactionCompleter.compute_reactions`
  and `render_reaction`) is not part of this model; it is a parameter, `Engine`,
  whose three functions either return a value or name the kind of error raised.
 */
module Driver {
  import opened Wrappers
  import opened Errors
  import opened Text
  import opened Materials

  /** A single-entry `{variable: element}` dict, or a dict the engine is given. */
  type Substitution = map<string, string>

  /** One `(target, substitution)` entry of `targets_to_balance`. */
  datatype Pair = Pair(target: Material, substitution: Option<Substitution>)

  /** The per-composition record `material_dict_to_info` hands on: amount and elements only. */
  datatype CompositionInfo = CompositionInfo(amount: string, elements: map<string, string>)

  /** The arguments a `MaterialInformation` object is built from, which it keeps. */
  datatype MaterialInfo = MaterialInfo(
    materialString: string,
    materialFormula: string,
    compositions: seq<CompositionInfo>,
    substitution: Option<Substitution>)

  /** The 4-tuple `try_balance` returns: target formula, solution, substitution, rendered equation. */
  datatype Balanced<S> = Balanced(targetFormula: string, solution: S, substitution: Option<Substitution>, rendered: string)

  /**
    The engine the driver calls, with solutions of type `S`:
    `construct` is `MaterialInformation(...)`, which either accepts its arguments or raises;
    `compute` is `ReactionCompleter(precursors, target).compute_reactions()`;
    `render` is `render_reaction(all_precursors, target, solution, substitution)`.
   */
  datatype Engine<!S> = Engine(
    construct: MaterialInfo -> Option<ErrorKind>,
    compute: (seq<MaterialInfo>, MaterialInfo) -> Result<S, ErrorKind>,
    render: (seq<Material>, Material, S, Option<Substitution>) -> Result<string, ErrorKind>)

  // ---------------------------------------------------------------------------
  // substitute_element_vars
  // ---------------------------------------------------------------------------

  /** The union of the element keys of all compositions (`reduce(or_, ...)`). */
  function ElementKeys(comps: seq<Component>): set<string> {
    if comps == [] then {}
    else ElementKeys(comps[..|comps| - 1]) + comps[|comps| - 1].elements.Keys
  }

  /** An element key of the target is a key of one of its compositions. */
  lemma {:induction false} ElementKeysMeaning(comps: seq<Component>, e: string)
    ensures e in ElementKeys(comps) <==> exists i :: 0 <= i < |comps| && e in comps[i].elements
  {
    if comps != [] {
      var init := comps[..|comps| - 1];
      ElementKeysMeaning(init, e);
      assert forall i :: 0 <= i < |init| ==> init[i] == comps[i];
    }
  }

  /** Declared variables that actually occur as element keys of the target. */
  function UsedVars(t: Material): (used: set<string>)
    ensures forall v :: v in used ==> v in t.elementsVars
  {
    t.elementsVars.Keys * ElementKeys(t.composition)
  }

  /** Line 23: a variable is used exactly when it is declared and keys an element of some composition. */
  lemma UsedVarsMeaning(t: Material, v: string)
    ensures v in UsedVars(t) <==>
      v in t.elementsVars && exists i :: 0 <= i < |t.composition| && v in t.composition[i].elements
  {
    ElementKeysMeaning(t.composition, v);
  }

  /** The branch condition of line 24: the target is expanded per variable. */
  predicate Expands(t: Material) {
    |t.elementsVars| != 0 && |UsedVars(t)| > 0
  }

  /** `order` lists every element of `s` exactly once: one iteration order of a Python set. */
  ghost predicate Enumerates(order: seq<string>, s: set<string>) {
    && (forall i, j :: 0 <= i < j < |order| ==> order[i] != order[j])
    && (forall v :: v in order <==> v in s)
  }

  /** The pairs variable `v` contributes for the candidates `cands`, one per candidate, in order. */
  function ChoicePairs(t: Material, v: string, cands: seq<string>): seq<Pair> {
    if cands == [] then []
    else ChoicePairs(t, v, cands[..|cands| - 1]) + [Pair(t, Some(map[v := cands[|cands| - 1]]))]
  }

  /** The pairs of the variables in `order`, each variable's candidates in turn. */
  function VariablesPairs(t: Material, order: seq<string>): seq<Pair>
    requires forall v :: v in order ==> v in t.elementsVars
  {
    if order == [] then []
    else
      var v := order[|order| - 1];
      VariablesPairs(t, order[..|order| - 1]) + ChoicePairs(t, v, t.elementsVars[v])
  }

  /** What one target contributes, given the order in which its used variables are visited. */
  function Block(t: Material, order: seq<string>): seq<Pair>
    requires forall v :: v in order ==> v in t.elementsVars
  {
    if Expands(t) then VariablesPairs(t, order) else [Pair(t, None)]
  }

  /** `orders[i]` is a visiting order of the used variables of `targets[i]` (empty when it does not expand). */
  ghost predicate OrdersFit(targets: seq<Material>, orders: seq<seq<string>>) {
    |orders| == |targets| && forall i :: 0 <= i < |targets| ==> FitsOrder(targets[i], orders[i])
  }

  ghost predicate FitsOrder(t: Material, order: seq<string>) {
    if Expands(t) then Enumerates(order, UsedVars(t)) else order == []
  }

  lemma ExpansionSnoc(targets: seq<Material>, orders: seq<seq<string>>, t: Material, order: seq<string>)
    requires OrdersFit(targets, orders) && FitsOrder(t, order)
    ensures OrdersFit(targets + [t], orders + [order])
    ensures Expansion(targets + [t], orders + [order]) == Expansion(targets, orders) + Block(t, order)
  {
    assert (targets + [t])[..|targets|] == targets;
    assert (orders + [order])[..|targets|] == orders;
  }

  /** One more target of the same list: its block is appended to the expansion so far. */
  lemma ExpansionStep(targets: seq<Material>, i: nat, orders: seq<seq<string>>, order: seq<string>)
    requires i < |targets| && OrdersFit(targets[..i], orders) && FitsOrder(targets[i], order)
    ensures OrdersFit(targets[..i + 1], orders + [order])
    ensures Expansion(targets[..i + 1], orders + [order]) == Expansion(targets[..i], orders) + Block(targets[i], order)
  {
    assert targets[..i + 1] == targets[..i] + [targets[i]];
    ExpansionSnoc(targets[..i], orders, targets[i], order);
  }

  /** The blocks of the targets, concatenated in target order. */
  function Expansion(targets: seq<Material>, orders: seq<seq<string>>): seq<Pair>
    requires OrdersFit(targets, orders)
  {
    if targets == [] then []
    else
      var n := |targets| - 1;
      assert OrdersFit(targets[..n], orders[..n]);
      Expansion(targets[..n], orders[..n]) + Block(targets[n], orders[n])
  }

  lemma {:induction false} ChoicePairsTargets(t: Material, v: string, cands: seq<string>)
    ensures forall p :: p in ChoicePairs(t, v, cands) ==> p.target == t
  {
    if cands != [] {
      ChoicePairsTargets(t, v, cands[..|cands| - 1]);
    }
  }

  lemma {:induction false} BlockTargets(t: Material, order: seq<string>)
    requires forall v :: v in order ==> v in t.elementsVars
    ensures forall p :: p in Block(t, order) ==> p.target == t
  {
    if Expands(t) && order != [] {
      var init := order[..|order| - 1];
      var v := order[|order| - 1];
      assert forall w :: w in init ==> w in order;
      BlockTargets(t, init);
      ChoicePairsTargets(t, v, t.elementsVars[v]);
    }
  }

  /** Every pair of the expansion belongs to one of the input targets. */
  lemma {:induction false} ExpansionTargets(targets: seq<Material>, orders: seq<seq<string>>)
    requires OrdersFit(targets, orders)
    ensures forall p :: p in Expansion(targets, orders) ==> p.target in targets
  {
    if targets != [] {
      var n := |targets| - 1;
      assert OrdersFit(targets[..n], orders[..n]);
      ExpansionTargets(targets[..n], orders[..n]);
      BlockTargets(targets[n], orders[n]);
      assert forall t :: t in targets[..n] ==> t in targets;
    }
  }

  /** A one-entry substitution `{v: c}` with `v` a used variable of `t` and `c` one of its candidates. */
  ghost predicate SingleChoice(t: Material, sub: Option<Substitution>) {
    && sub.Some?
    && |sub.value| == 1
    && forall v :: v in sub.value ==> v in UsedVars(t) && sub.value[v] in t.elementsVars[v]
  }

  lemma {:induction false} ChoicePairsShape(t: Material, v: string, cands: seq<string>)
    ensures forall p :: p in ChoicePairs(t, v, cands) ==>
      p.target == t && p.substitution.Some? && p.substitution.value.Keys == {v} && p.substitution.value[v] in cands
  {
    if cands != [] {
      var init := cands[..|cands| - 1];
      ChoicePairsShape(t, v, init);
      assert forall c :: c in init ==> c in cands;
    }
  }

  lemma {:induction false} VariablesPairsShape(t: Material, order: seq<string>)
    requires forall v :: v in order ==> v in t.elementsVars && v in UsedVars(t)
    ensures forall p :: p in VariablesPairs(t, order) ==> p.target == t && SingleChoice(t, p.substitution)
  {
    if order != [] {
      var init := order[..|order| - 1];
      var v := order[|order| - 1];
      assert forall w :: w in init ==> w in order;
      VariablesPairsShape(t, init);
      ChoicePairsShape(t, v, t.elementsVars[v]);
      forall p | p in ChoicePairs(t, v, t.elementsVars[v]) ensures SingleChoice(t, p.substitution) {
        assert |p.substitution.value.Keys| == 1;
      }
    }
  }

  /**
    A target that does not expand contributes `(target, None)` alone; one that does
    contributes only pairs of its own whose substitution maps a single declared
    variable that occurs among its element keys to one of that variable's candidates.
   */
  lemma BlockShape(t: Material, order: seq<string>)
    requires FitsOrder(t, order)
    ensures !Expands(t) ==> Block(t, order) == [Pair(t, None)]
    ensures Expands(t) ==> forall p :: p in Block(t, order) ==> p.target == t && SingleChoice(t, p.substitution)
    ensures forall p :: p in Block(t, order) && p.substitution.Some? ==>
      forall v :: v in p.substitution.value ==> v in t.elementsVars && v in ElementKeys(t.composition)
  {
    if Expands(t) {
      VariablesPairsShape(t, order);
    }
  }

  /** The candidates attached to variable `v` by the pairs, in pair order. */
  function CandidatesOf(pairs: seq<Pair>, v: string): seq<string> {
    if pairs == [] then []
    else
      var p := pairs[|pairs| - 1];
      CandidatesOf(pairs[..|pairs| - 1], v)
        + (if p.substitution.Some? && v in p.substitution.value then [p.substitution.value[v]] else [])
  }

  lemma {:induction false} CandidatesOfAppend(a: seq<Pair>, b: seq<Pair>, v: string)
    ensures CandidatesOf(a + b, v) == CandidatesOf(a, v) + CandidatesOf(b, v)
    decreases |b|
  {
    if b == [] {
      assert a + b == a;
    } else {
      var init := b[..|b| - 1];
      assert (a + b)[..|a + b| - 1] == a + init;
      assert (a + b)[|a + b| - 1] == b[|b| - 1];
      CandidatesOfAppend(a, init, v);
    }
  }

  lemma {:induction false} ChoicePairsCandidates(t: Material, v: string, cands: seq<string>, w: string)
    ensures CandidatesOf(ChoicePairs(t, v, cands), w) == if v == w then cands else []
  {
    if cands != [] {
      var init := cands[..|cands| - 1];
      var c := cands[|cands| - 1];
      ChoicePairsCandidates(t, v, init, w);
      var pre, p := ChoicePairs(t, v, init), Pair(t, Some(map[v := c]));
      var ps := ChoicePairs(t, v, cands);
      assert ps == pre + [p];
      assert ps[..|ps| - 1] == pre && ps[|ps| - 1] == p;
      if v == w {
        assert CandidatesOf(ps, w) == init + [c];
        assert init + [c] == cands;
      } else {
        assert CandidatesOf(ps, w) == [] + [];
      }
    }
  }

  lemma {:induction false} VariablesPairsCandidates(t: Material, order: seq<string>, w: string)
    requires forall v :: v in order ==> v in t.elementsVars
    requires forall i, j :: 0 <= i < j < |order| ==> order[i] != order[j]
    ensures CandidatesOf(VariablesPairs(t, order), w) == if w in order then t.elementsVars[w] else []
  {
    if order != [] {
      var n := |order| - 1;
      var init, v := order[..n], order[n];
      assert order == init + [v];
      assert forall i :: 0 <= i < n ==> init[i] == order[i];
      VariablesPairsCandidates(t, init, w);
      var a, b := VariablesPairs(t, init), ChoicePairs(t, v, t.elementsVars[v]);
      assert VariablesPairs(t, order) == a + b;
      CandidatesOfAppend(a, b, w);
      ChoicePairsCandidates(t, v, t.elementsVars[v], w);
      assert v !in init by {
        forall i | 0 <= i < n ensures init[i] != v {
          assert order[i] != order[n];
        }
      }
    }
  }

  /**
    Every pair of the expansion either leaves its target unchanged (a target without
    used variables) or substitutes exactly one used variable by one of its candidates.
   */
  lemma {:induction false} ExpansionShape(targets: seq<Material>, orders: seq<seq<string>>)
    requires OrdersFit(targets, orders)
    ensures forall p :: p in Expansion(targets, orders) ==>
      && (Expands(p.target) ==> SingleChoice(p.target, p.substitution))
      && (!Expands(p.target) ==> p.substitution.None?)
  {
    if targets != [] {
      var n := |targets| - 1;
      assert OrdersFit(targets[..n], orders[..n]);
      ExpansionShape(targets[..n], orders[..n]);
      BlockShape(targets[n], orders[n]);
    }
  }

  /**
    Per variable, the candidates a block attaches to it are exactly that variable's
    candidate list, in order, when the variable is used, and nothing otherwise
    (declared but unused variables never appear).
   */
  lemma BlockCandidates(t: Material, order: seq<string>, w: string)
    requires Expands(t) && Enumerates(order, UsedVars(t))
    ensures CandidatesOf(Block(t, order), w) == if w in UsedVars(t) then t.elementsVars[w] else []
  {
    VariablesPairsCandidates(t, order, w);
  }

  /** The sum of the candidate counts of the variables in `order`. */
  function CandidateTotal(t: Material, order: seq<string>): nat
    requires forall v :: v in order ==> v in t.elementsVars
  {
    if order == [] then 0
    else CandidateTotal(t, order[..|order| - 1]) + |t.elementsVars[order[|order| - 1]]|
  }

  lemma {:induction false} ChoicePairsLength(t: Material, v: string, cands: seq<string>)
    ensures |ChoicePairs(t, v, cands)| == |cands|
  {
    if cands != [] {
      ChoicePairsLength(t, v, cands[..|cands| - 1]);
    }
  }

  lemma {:induction false} VariablesPairsLength(t: Material, order: seq<string>)
    requires forall v :: v in order ==> v in t.elementsVars
    ensures |VariablesPairs(t, order)| == CandidateTotal(t, order)
  {
    if order != [] {
      var v := order[|order| - 1];
      assert forall u :: u in order[..|order| - 1] ==> u in order;
      VariablesPairsLength(t, order[..|order| - 1]);
      ChoicePairsLength(t, v, t.elementsVars[v]);
    }
  }

  lemma {:induction false} CandidateTotalAppend(t: Material, a: seq<string>, b: seq<string>)
    requires forall v :: v in a + b ==> v in t.elementsVars
    ensures CandidateTotal(t, a + b) == CandidateTotal(t, a) + CandidateTotal(t, b)
    decreases |b|
  {
    if b == [] {
      assert a + b == a;
    } else {
      var init := b[..|b| - 1];
      assert (a + b)[..|a + b| - 1] == a + init;
      assert (a + b)[|a + b| - 1] == b[|b| - 1];
      assert forall v :: v in a + init ==> v in a + b;
      CandidateTotalAppend(t, a, init);
    }
  }

  lemma EnumeratesDropLast(o: seq<string>, s: set<string>)
    requires Enumerates(o, s) && o != []
    ensures Enumerates(o[..|o| - 1], s - {o[|o| - 1]})
  {
    var n := |o| - 1;
    forall v ensures v in o[..n] <==> v in s - {o[n]} {
      if v in o[..n] {
        var k :| 0 <= k < n && o[..n][k] == v;
        assert o[k] == v;
      }
      if v in s - {o[n]} {
        var k :| 0 <= k < |o| && o[k] == v;
        assert o[..n][k] == v;
      }
    }
  }

  lemma EnumeratesRemoveAt(o: seq<string>, s: set<string>, j: nat)
    requires Enumerates(o, s) && j < |o|
    ensures Enumerates(o[..j] + o[j + 1..], s - {o[j]})
  {
    var x := o[j];
    var rest := o[..j] + o[j + 1..];
    forall a, b | 0 <= a < b < |rest| ensures rest[a] != rest[b] {
      var a' := if a < j then a else a + 1;
      var b' := if b < j then b else b + 1;
      assert rest[a] == o[a'] && rest[b] == o[b'];
    }
    forall v ensures v in rest <==> v in s - {x} {
      if v in rest {
        var k :| 0 <= k < |rest| && rest[k] == v;
        var k' := if k < j then k else k + 1;
        assert o[k'] == v && k' != j;
      }
      if v in s - {x} {
        var k :| 0 <= k < |o| && o[k] == v;
        assert k != j;
        if k < j { assert rest[k] == v; } else { assert rest[k - 1] == v; }
      }
    }
  }

  lemma CandidateTotalSplit(t: Material, o: seq<string>, j: nat)
    requires j < |o| && forall v :: v in o ==> v in t.elementsVars
    ensures CandidateTotal(t, o) == CandidateTotal(t, o[..j] + o[j + 1..]) + |t.elementsVars[o[j]]|
  {
    var x := o[j];
    assert o == o[..j] + [x] + o[j + 1..];
    assert forall v :: v in o[..j] + o[j + 1..] ==> v in o;
    CandidateTotalAppend(t, o[..j] + [x], o[j + 1..]);
    CandidateTotalAppend(t, o[..j], [x]);
    CandidateTotalAppend(t, o[..j], o[j + 1..]);
    assert [x][..0] == [];
  }

  /** The total does not depend on the order in which a set of variables is visited. */
  lemma {:induction false} CandidateTotalOrderFree(t: Material, o1: seq<string>, o2: seq<string>, s: set<string>)
    requires s <= t.elementsVars.Keys
    requires Enumerates(o1, s) && Enumerates(o2, s)
    ensures CandidateTotal(t, o1) == CandidateTotal(t, o2)
    decreases |o1| + |o2|, |o2|
  {
    if o1 == [] {
      if o2 != [] {
        CandidateTotalOrderFree(t, o2, o1, s);
      }
    } else {
      var n := |o1| - 1;
      var x := o1[n];
      assert x in o2;
      var j :| 0 <= j < |o2| && o2[j] == x;
      EnumeratesDropLast(o1, s);
      EnumeratesRemoveAt(o2, s, j);
      CandidateTotalOrderFree(t, o1[..n], o2[..j] + o2[j + 1..], s - {x});
      CandidateTotalSplit(t, o2, j);
    }
  }

  /**
    An expanding target contributes exactly the sum, over its used variables, of
    their candidate counts (not their product), whatever order the variables are
    visited in.
   */
  lemma BlockLength(t: Material, order: seq<string>, other: seq<string>)
    requires Expands(t) && Enumerates(order, UsedVars(t)) && Enumerates(other, UsedVars(t))
    ensures |Block(t, order)| == CandidateTotal(t, order) == CandidateTotal(t, other)
  {
    VariablesPairsLength(t, order);
    CandidateTotalOrderFree(t, order, other, UsedVars(t));
  }

  /** The inner loop of lines 26-27: one pair per candidate of `sub`, appended in list order. */
  method AppendChoices(acc: seq<Pair>, target: Material, sub: string) returns (out: seq<Pair>)
    requires sub in target.elementsVars
    ensures out == acc + ChoicePairs(target, sub, target.elementsVars[sub])
  {
    out := acc;
    var cands := target.elementsVars[sub];
    for k := 0 to |cands|
      invariant out == acc + ChoicePairs(target, sub, cands[..k])
    {
      assert cands[..k + 1][..k] == cands[..k];
      out := out + [Pair(target, Some(map[sub := cands[k]]))];
    }
    assert cands[..|cands|] == cands;
  }

  /** Lines 21-29 for one target: what it appends, given the order its used variables are visited in. */
  method AppendTarget(acc: seq<Pair>, target: Material) returns (out: seq<Pair>, ghost order: seq<string>)
    requires target.composition != []
    ensures FitsOrder(target, order)
    ensures out == acc + Block(target, order)
  {
    var hasElementVars := |target.elementsVars| != 0;
    var targetElements := ElementKeys(target.composition);
    var elementVarsUsed := target.elementsVars.Keys * targetElements;
    out := acc;
    order := [];
    if hasElementVars && |elementVarsUsed| > 0 {
      var remaining := elementVarsUsed;
      while remaining != {}
        invariant remaining <= elementVarsUsed
        invariant Enumerates(order, elementVarsUsed - remaining)
        invariant out == acc + VariablesPairs(target, order)
        decreases remaining
      {
        var sub :| sub in remaining;
        out := AppendChoices(out, target, sub);
        assert (order + [sub])[..|order|] == order;
        order := order + [sub];
        remaining := remaining - {sub};
      }
    } else {
      out := out + [Pair(target, None)];
    }
  }

  /** Some target has no composition, which makes `reduce` raise. */
  predicate SomeUncomposed(targets: seq<Material>) {
    exists i :: 0 <= i < |targets| && targets[i].composition == []
  }

  /**
    `substitute_element_vars`. The used variables are visited in an unspecified
    order (Python set iteration); `orders` records the order that was taken.
    A target with no compositions makes `reduce` raise a TypeError.
   */
  method SubstituteElementVars(targets: seq<Material>) returns (r: Result<seq<Pair>, ErrorKind>, ghost orders: seq<seq<string>>)
    ensures r.Err? <==> SomeUncomposed(targets)
    ensures r.Err? ==> r.error == OtherException
    ensures r.Ok? ==> OrdersFit(targets, orders) && r.value == Expansion(targets, orders)
  {
    var targetsToBalance: seq<Pair> := [];
    orders := [];
    for i := 0 to |targets|
      invariant !SomeUncomposed(targets[..i])
      invariant OrdersFit(targets[..i], orders)
      invariant targetsToBalance == Expansion(targets[..i], orders)
    {
      if targets[i].composition == [] {
        assert targets[i] == targets[..i + 1][i];
        return Err(OtherException), orders;
      }
      UncomposedStep(targets, i);
      ghost var order;
      targetsToBalance, order := AppendTarget(targetsToBalance, targets[i]);
      ExpansionStep(targets, i, orders, order);
      orders := orders + [order];
    }
    assert targets[..|targets|] == targets;
    r := Ok(targetsToBalance);
  }

  /** A composed target extends a prefix with no uncomposed target. */
  lemma UncomposedStep(targets: seq<Material>, i: nat)
    requires i < |targets| && !SomeUncomposed(targets[..i]) && targets[i].composition != []
    ensures !SomeUncomposed(targets[..i + 1])
  {
    assert targets[..i + 1] == targets[..i] + [targets[i]];
  }

  // ---------------------------------------------------------------------------
  // material_dict_to_info and screen_good_precursors
  // ---------------------------------------------------------------------------

  function Project(comps: seq<Component>): seq<CompositionInfo> {
    seq(|comps|, i requires 0 <= i < |comps| => CompositionInfo(comps[i].amount, comps[i].elements))
  }

  /** What `material_dict_to_info(m, sub)` returns or raises. */
  function ToInfo<S>(m: Material, sub: Option<Substitution>, eng: Engine<S>): Result<MaterialInfo, ErrorKind> {
    var info := MaterialInfo(m.materialString, m.materialFormula, Project(m.composition), sub);
    match eng.construct(info)
    case None => Ok(info)
    case Some(e) => Err(e)
  }

  /**
    `material_dict_to_info`: copies amount and elements of each composition (dropping
    any other key), then builds the engine's material object, which may raise.
   */
  method MaterialDictToInfo<S>(m: Material, sub: Option<Substitution>, eng: Engine<S>) returns (r: Result<MaterialInfo, ErrorKind>)
    ensures r == ToInfo(m, sub, eng)
    ensures r.Ok? ==> && r.value.materialFormula == m.materialFormula
                      && r.value.materialString == m.materialString
                      && r.value.substitution == sub
                      && |r.value.compositions| == |m.composition|
                      && forall i :: 0 <= i < |m.composition| ==>
                           r.value.compositions[i] == CompositionInfo(m.composition[i].amount, m.composition[i].elements)
  {
    var compositions: seq<CompositionInfo> := [];
    for i := 0 to |m.composition|
      invariant compositions == Project(m.composition[..i])
    {
      var comp := m.composition[i];
      compositions := compositions + [CompositionInfo(comp.amount, comp.elements)];
    }
    assert m.composition[..|m.composition|] == m.composition;
    var info := MaterialInfo(m.materialString, m.materialFormula, compositions, sub);
    match eng.construct(info)
    case None => r := Ok(info);
    case Some(e) => r := Err(e);
  }

  /** A precursor whose conversion raises something other than FormulaException aborts the screening. */
  predicate FatalConversion<S>(p: Material, eng: Engine<S>) {
    ToInfo(p, None, eng).Err? && !IsInstance(ToInfo(p, None, eng).error, FormulaException)
  }

  /** What `screen_good_precursors(ps)` returns or raises. */
  function Screened<S>(ps: seq<Material>, eng: Engine<S>): Result<seq<MaterialInfo>, ErrorKind> {
    if ps == [] then Ok([])
    else
      var kept :- Screened(ps[..|ps| - 1], eng);
      match ToInfo(ps[|ps| - 1], None, eng)
      case Ok(info) => Ok(kept + [info])
      case Err(e) => if IsInstance(e, FormulaException) then Ok(kept) else Err(e)
  }

  /** The indices of the precursors whose conversion succeeds, in increasing order. */
  ghost function Kept<S>(ps: seq<Material>, eng: Engine<S>): (idx: seq<nat>)
    ensures forall k :: 0 <= k < |idx| ==> idx[k] < |ps|
  {
    if ps == [] then []
    else
      var n := |ps| - 1;
      Kept(ps[..n], eng) + if ToInfo(ps[n], None, eng).Ok? then [n] else []
  }

  /** The kept indices are increasing and are exactly the precursors whose conversion succeeds. */
  lemma KeptMeaning<S>(ps: seq<Material>, eng: Engine<S>)
    ensures forall k :: 0 <= k < |Kept(ps, eng)| ==> ToInfo(ps[Kept(ps, eng)[k]], None, eng).Ok?
    ensures forall k, l :: 0 <= k < l < |Kept(ps, eng)| ==> Kept(ps, eng)[k] < Kept(ps, eng)[l]
    ensures forall i :: 0 <= i < |ps| && ToInfo(ps[i], None, eng).Ok? ==> i in Kept(ps, eng)
  {
    KeptConverts(ps, eng);
    KeptIncrease(ps, eng);
    forall i | 0 <= i < |ps| && ToInfo(ps[i], None, eng).Ok? ensures i in Kept(ps, eng) {
      KeptCover(ps, eng, i);
    }
  }

  lemma {:induction false} KeptConverts<S>(ps: seq<Material>, eng: Engine<S>)
    ensures forall k :: 0 <= k < |Kept(ps, eng)| ==> ToInfo(ps[Kept(ps, eng)[k]], None, eng).Ok?
  {
    if ps != [] {
      var n := |ps| - 1;
      var init := ps[..n];
      KeptConverts(init, eng);
      var prev := Kept(init, eng);
      forall k | 0 <= k < |Kept(ps, eng)| ensures ToInfo(ps[Kept(ps, eng)[k]], None, eng).Ok? {
        if k < |prev| {
          assert Kept(ps, eng)[k] == prev[k] && init[prev[k]] == ps[prev[k]];
        }
      }
    }
  }

  lemma {:induction false} KeptIncrease<S>(ps: seq<Material>, eng: Engine<S>)
    ensures forall k, l :: 0 <= k < l < |Kept(ps, eng)| ==> Kept(ps, eng)[k] < Kept(ps, eng)[l]
  {
    if ps != [] {
      KeptIncrease(ps[..|ps| - 1], eng);
    }
  }

  lemma {:induction false} KeptCover<S>(ps: seq<Material>, eng: Engine<S>, i: nat)
    requires i < |ps| && ToInfo(ps[i], None, eng).Ok?
    ensures i in Kept(ps, eng)
  {
    var n := |ps| - 1;
    var init := ps[..n];
    if i < n {
      assert init[i] == ps[i];
      KeptCover(init, eng, i);
    }
  }

  /** Screening fails exactly when some conversion raises something other than FormulaException. */
  lemma {:induction false} ScreenedFails<S>(ps: seq<Material>, eng: Engine<S>)
    ensures Screened(ps, eng).Err? <==> exists i :: 0 <= i < |ps| && FatalConversion(ps[i], eng)
  {
    if ps != [] {
      var n := |ps| - 1;
      ScreenedFails(ps[..n], eng);
      assert forall i :: 0 <= i < n ==> ps[..n][i] == ps[i];
    }
  }

  /** The exception that escapes is the one raised by the first fatal conversion. */
  lemma {:induction false} ScreenedFirstError<S>(ps: seq<Material>, eng: Engine<S>) returns (i: nat)
    requires Screened(ps, eng).Err?
    ensures i < |ps| && FatalConversion(ps[i], eng)
    ensures Screened(ps, eng).error == ToInfo(ps[i], None, eng).error
    ensures forall j :: 0 <= j < i ==> !FatalConversion(ps[j], eng)
  {
    var n := |ps| - 1;
    assert forall j :: 0 <= j < n ==> ps[..n][j] == ps[j];
    if Screened(ps[..n], eng).Err? {
      i := ScreenedFirstError(ps[..n], eng);
    } else {
      ScreenedFails(ps[..n], eng);
      i := n;
    }
  }

  /**
    On success, screening keeps, in their original order, exactly the precursors
    whose conversion succeeds: never more than it was given.
   */
  lemma {:induction false} ScreenedKeeps<S>(ps: seq<Material>, eng: Engine<S>)
    requires Screened(ps, eng).Ok?
    ensures |Screened(ps, eng).value| == |Kept(ps, eng)| <= |ps|
    ensures forall k :: 0 <= k < |Kept(ps, eng)| ==>
      ToInfo(ps[Kept(ps, eng)[k]], None, eng) == Ok(Screened(ps, eng).value[k])
  {
    KeptIncrease(ps, eng);
    KeptBound(Kept(ps, eng), |ps|);
    if ps != [] {
      var n := |ps| - 1;
      assert forall j :: 0 <= j < n ==> ps[..n][j] == ps[j];
      ScreenedKeeps(ps[..n], eng);
    }
  }

  lemma {:induction false} KeptBound(idx: seq<nat>, n: nat)
    requires forall k :: 0 <= k < |idx| ==> idx[k] < n
    requires forall k, l :: 0 <= k < l < |idx| ==> idx[k] < idx[l]
    ensures |idx| <= n
  {
    if idx != [] {
      var m := |idx| - 1;
      KeptBound(idx[..m], idx[m]);
    }
  }

  /** `screen_good_precursors`. */
  method ScreenGoodPrecursors<S>(ps: seq<Material>, eng: Engine<S>) returns (r: Result<seq<MaterialInfo>, ErrorKind>)
    ensures r == Screened(ps, eng)
  {
    var precursorObjects: seq<MaterialInfo> := [];
    for i := 0 to |ps|
      invariant Screened(ps[..i], eng) == Ok(precursorObjects)
    {
      assert ps[..i + 1][..i] == ps[..i];
      var info := MaterialDictToInfo(ps[i], None, eng);
      if info.Err? {
        if IsInstance(info.error, FormulaException) {
          continue;
        }
        ScreenedStaysErr(ps, i + 1, eng);
        return Err(info.error);
      }
      precursorObjects := precursorObjects + [info.value];
    }
    assert ps[..|ps|] == ps;
    r := Ok(precursorObjects);
  }

  lemma {:induction false} ScreenedStaysErr<S>(ps: seq<Material>, i: nat, eng: Engine<S>)
    requires i <= |ps| && Screened(ps[..i], eng).Err?
    ensures Screened(ps, eng) == Screened(ps[..i], eng)
    decreases |ps| - i
  {
    if i < |ps| {
      assert ps[..i + 1][..i] == ps[..i];
      ScreenedStaysErr(ps, i + 1, eng);
    } else {
      assert ps[..i] == ps;
    }
  }

  // ---------------------------------------------------------------------------
  // find_precursors_in_same_sentence
  // ---------------------------------------------------------------------------

  /** `a` is an order-preserving subsequence of `b`. */
  ghost predicate IsSubsequence<T>(a: seq<T>, b: seq<T>)
    decreases |b|
  {
    a == [] ||
    (b != [] &&
      ((a[|a| - 1] == b[|b| - 1] && IsSubsequence(a[..|a| - 1], b[..|b| - 1]))
       || IsSubsequence(a, b[..|b| - 1])))
  }

  /** The precursors whose formula occurs in the sentence, in precursor order. */
  function InSentence(ps: seq<MaterialInfo>, sentence: string): seq<MaterialInfo> {
    if ps == [] then []
    else
      var n := |ps| - 1;
      InSentence(ps[..n], sentence) + if Contains(sentence, ps[n].materialFormula) then [ps[n]] else []
  }

  /**
    A group holds exactly the precursors whose formula is a substring of the
    sentence, as an order-preserving subsequence of the precursor list.
   */
  lemma InSentenceMeaning(ps: seq<MaterialInfo>, sentence: string)
    ensures |InSentence(ps, sentence)| <= |ps|
    ensures forall x :: x in InSentence(ps, sentence) <==> x in ps && Contains(sentence, x.materialFormula)
    ensures IsSubsequence(InSentence(ps, sentence), ps)
    ensures forall x ::
      multiset(InSentence(ps, sentence))[x] == (if Contains(sentence, x.materialFormula) then multiset(ps)[x] else 0)
  {
    InSentenceMembers(ps, sentence);
    InSentenceOrder(ps, sentence);
    forall x ensures multiset(InSentence(ps, sentence))[x] ==
      (if Contains(sentence, x.materialFormula) then multiset(ps)[x] else 0)
    {
      InSentenceCount(ps, sentence, x);
    }
  }

  /** A mentioned precursor is kept as often as it is listed, repeats included; another not at all. */
  lemma {:induction false} InSentenceCount(ps: seq<MaterialInfo>, sentence: string, x: MaterialInfo)
    ensures multiset(InSentence(ps, sentence))[x] ==
      (if Contains(sentence, x.materialFormula) then multiset(ps)[x] else 0)
  {
    if ps != [] {
      var n := |ps| - 1;
      var init, last := ps[..n], ps[n];
      InSentenceCount(init, sentence, x);
      var kept := if Contains(sentence, last.materialFormula) then [last] else [];
      assert InSentence(ps, sentence) == InSentence(init, sentence) + kept;
      MultisetSnoc(ps, init, last);
      assert multiset(InSentence(ps, sentence)) == multiset(InSentence(init, sentence)) + multiset(kept);
    }
  }

  lemma MultisetSnoc<T>(xs: seq<T>, init: seq<T>, last: T)
    requires |xs| > 0 && init == xs[..|xs| - 1] && last == xs[|xs| - 1]
    ensures multiset(xs) == multiset(init) + multiset{last}
  {
    assert xs == init + [last];
  }

  lemma {:induction false} InSentenceMembers(ps: seq<MaterialInfo>, sentence: string)
    ensures |InSentence(ps, sentence)| <= |ps|
    ensures forall x :: x in InSentence(ps, sentence) <==> x in ps && Contains(sentence, x.materialFormula)
  {
    if ps != [] {
      var n := |ps| - 1;
      InSentenceMembers(ps[..n], sentence);
      assert ps == ps[..n] + [ps[n]];
    }
  }

  lemma {:induction false} InSentenceOrder(ps: seq<MaterialInfo>, sentence: string)
    ensures IsSubsequence(InSentence(ps, sentence), ps)
  {
    if ps != [] {
      var n := |ps| - 1;
      var init := InSentence(ps[..n], sentence);
      InSentenceOrder(ps[..n], sentence);
      if Contains(sentence, ps[n].materialFormula) {
        var a := init + [ps[n]];
        assert InSentence(ps, sentence) == a;
        assert a[..|a| - 1] == init && a[|a| - 1] == ps[n];
      } else {
        assert InSentence(ps, sentence) == init;
      }
    }
  }

  /** The non-empty images of `xs` under `f`, in order. */
  function NonEmptyImages<A, B>(f: A -> seq<B>, xs: seq<A>): (r: seq<seq<B>>)
    ensures |r| <= |xs|
  {
    if xs == [] then []
    else
      var n := |xs| - 1;
      var g := f(xs[n]);
      NonEmptyImages(f, xs[..n]) + (if g != [] then [g] else [])
  }

  /** No image kept is empty. */
  lemma {:induction false} NonEmptyImagesNonEmpty<A, B>(f: A -> seq<B>, xs: seq<A>)
    ensures forall g :: g in NonEmptyImages(f, xs) ==> g != []
  {
    if xs != [] {
      NonEmptyImagesNonEmpty(f, xs[..|xs| - 1]);
    }
  }

  /** The positions of `xs` whose image is not empty, in order. */
  function ImageIndices<A, B>(f: A -> seq<B>, xs: seq<A>): (r: seq<nat>)
    ensures |r| == |NonEmptyImages(f, xs)|
    ensures forall k :: 0 <= k < |r| ==> r[k] < |xs|
  {
    if xs == [] then []
    else
      var n := |xs| - 1;
      ImageIndices(f, xs[..n]) + (if f(xs[n]) != [] then [n] else [])
  }

  /** Image `k` is the image of the element at position `ImageIndices(f, xs)[k]`. */
  lemma {:induction false} ImageIndicesMatch<A, B>(f: A -> seq<B>, xs: seq<A>)
    ensures forall k :: 0 <= k < |ImageIndices(f, xs)| ==>
      NonEmptyImages(f, xs)[k] == f(xs[ImageIndices(f, xs)[k]])
  {
    if xs != [] {
      var n := |xs| - 1;
      var init := xs[..n];
      ImageIndicesMatch(f, init);
      var prev, before := ImageIndices(f, init), NonEmptyImages(f, init);
      forall k | 0 <= k < |ImageIndices(f, xs)| ensures NonEmptyImages(f, xs)[k] == f(xs[ImageIndices(f, xs)[k]]) {
        if k < |prev| {
          assert ImageIndices(f, xs)[k] == prev[k] && NonEmptyImages(f, xs)[k] == before[k];
          assert init[prev[k]] == xs[prev[k]];
        }
      }
    }
  }

  /** The positions are strictly increasing. */
  lemma {:induction false} ImageIndicesIncrease<A, B>(f: A -> seq<B>, xs: seq<A>)
    ensures forall k, l :: 0 <= k < l < |ImageIndices(f, xs)| ==> ImageIndices(f, xs)[k] < ImageIndices(f, xs)[l]
  {
    if xs != [] {
      ImageIndicesIncrease(f, xs[..|xs| - 1]);
    }
  }

  /** Every position whose image is not empty is listed. */
  lemma {:induction false} ImageIndicesCover<A, B>(f: A -> seq<B>, xs: seq<A>, j: nat)
    requires j < |xs| && f(xs[j]) != []
    ensures j in ImageIndices(f, xs)
  {
    var n := |xs| - 1;
    var init := xs[..n];
    var prev := ImageIndices(f, init);
    assert ImageIndices(f, xs) == prev + (if f(xs[n]) != [] then [n] else []);
    if j < n {
      assert init[j] == xs[j];
      ImageIndicesCover(f, init, j);
    }
  }

  /** The precursors a sentence mentions, as a function of the sentence. */
  function MentionsOf(ps: seq<MaterialInfo>): string -> seq<MaterialInfo> {
    (sentence: string) => InSentence(ps, sentence)
  }

  /** One group per sentence that mentions at least one precursor, in sentence order. */
  function SentenceGroups(ps: seq<MaterialInfo>, sentences: seq<string>): (r: seq<seq<MaterialInfo>>)
    ensures |r| <= |sentences|
    ensures forall g :: g in r ==> g != []
  {
    NonEmptyImagesNonEmpty(MentionsOf(ps), sentences);
    NonEmptyImages(MentionsOf(ps), sentences)
  }

  /** The inner loop of lines 78-82: the precursors whose formula occurs in `sentence`. */
  method MentionedIn(ps: seq<MaterialInfo>, sentence: string) returns (candidates: seq<MaterialInfo>)
    ensures candidates == InSentence(ps, sentence)
  {
    candidates := [];
    for i := 0 to |ps|
      invariant candidates == InSentence(ps[..i], sentence)
    {
      assert ps[..i + 1][..i] == ps[..i];
      if Contains(sentence, ps[i].materialFormula) {
        candidates := candidates + [ps[i]];
      }
    }
    assert ps[..|ps|] == ps;
  }

  /**
    Group `k` is the set of precursors mentioned by sentence `which[k]`, the
    sentences taken in order; a sentence that mentions no precursor gives no group.
   */
  lemma SentenceGroupsMeaning(ps: seq<MaterialInfo>, sentences: seq<string>) returns (which: seq<nat>)
    ensures |which| == |SentenceGroups(ps, sentences)|
    ensures forall k :: 0 <= k < |which| ==>
      which[k] < |sentences| && SentenceGroups(ps, sentences)[k] == InSentence(ps, sentences[which[k]])
    ensures forall k, l :: 0 <= k < l < |which| ==> which[k] < which[l]
    ensures forall j :: 0 <= j < |sentences| && j !in which ==> InSentence(ps, sentences[j]) == []
  {
    which := ImageIndices(MentionsOf(ps), sentences);
    ImageIndicesMatch(MentionsOf(ps), sentences);
    ImageIndicesIncrease(MentionsOf(ps), sentences);
    forall j | 0 <= j < |sentences| && InSentence(ps, sentences[j]) != [] ensures j in which {
      ImageIndicesCover(MentionsOf(ps), sentences, j);
    }
  }

  /** `find_precursors_in_same_sentence`. */
  method FindPrecursorsInSameSentence(ps: seq<MaterialInfo>, sentences: seq<string>) returns (groups: seq<seq<MaterialInfo>>)
    ensures groups == SentenceGroups(ps, sentences)
    ensures |groups| <= |sentences|
    ensures forall g :: g in groups ==> g != []
  {
    groups := [];
    for j := 0 to |sentences|
      invariant groups == SentenceGroups(ps, sentences[..j])
    {
      var candidates := MentionedIn(ps, sentences[j]);
      assert sentences[..j + 1][..j] == sentences[..j];
      if candidates != [] {
        groups := groups + [candidates];
      }
    }
    assert sentences[..|sentences|] == sentences;
  }

  // ---------------------------------------------------------------------------
  // try_balance and balance_recipe
  // ---------------------------------------------------------------------------

  /**
    `try_balance`: convert the target with its substitution, solve, render. The first
    call that raises decides the error; on success the tuple carries the target's
    formula and the substitution it was given.
   */
  function TryBalance<S>(eng: Engine<S>, candidates: seq<MaterialInfo>, target: Material,
                         sub: Option<Substitution>, all: seq<Material>): (r: Result<Balanced<S>, ErrorKind>)
    ensures r.Ok? ==> r.value.targetFormula == target.materialFormula && r.value.substitution == sub
    ensures ToInfo(target, sub, eng).Err? ==> r == Err(ToInfo(target, sub, eng).error)
    ensures ToInfo(target, sub, eng).Ok? ==>
      var solved := eng.compute(candidates, ToInfo(target, sub, eng).value);
      && (solved.Err? ==> r == Err(solved.error))
      && (solved.Ok? ==> r.Ok? == eng.render(all, target, solved.value, sub).Ok?)
      && (solved.Ok? && eng.render(all, target, solved.value, sub).Err? ==>
            r == Err(eng.render(all, target, solved.value, sub).error))
      && (r.Ok? ==> r.value.solution == solved.value && r.value.rendered == eng.render(all, target, solved.value, sub).value)
  {
    var info :- ToInfo(target, sub, eng);
    var solution :- eng.compute(candidates, info);
    var rendered :- eng.render(all, target, solution, sub);
    Ok(Balanced(info.materialFormula, solution, sub, rendered))
  }

  /** The clause of the `try` at lines 214-254 that handles an error from the first attempt. */
  datatype Handler = RetryWithSentences | CannotBalanceHandler | GeneralHandler

  function FirstAttemptHandler(e: ErrorKind): (h: Handler)
    ensures h == RetryWithSentences <==> e == TooManyPrecursors
    ensures h == CannotBalanceHandler <==> e != TooManyPrecursors && (IsCannotBalance(e) || e == TokenError)
    ensures h == GeneralHandler <==> !IsCannotBalance(e) && e != TokenError
  {
    if IsInstance(e, TooManyPrecursors) then RetryWithSentences
    else if IsInstance(e, CannotBalance) || IsInstance(e, TokenError) then CannotBalanceHandler
    else GeneralHandler
  }

  /** What `except (CannotBalance, TokenError)` in the subset loop catches. */
  predicate CaughtInSubsetLoop(e: ErrorKind) {
    IsInstance(e, CannotBalance) || IsInstance(e, TokenError)
  }

  /** What processing one pair does to `solutions` and to the call as a whole. */
  datatype Attempt<S> = Skipped | Recorded(balanced: Balanced<S>) | Raised(error: ErrorKind)

  /**
    The loop of lines 228-239: try the groups in order, record the first success;
    an error the loop does not catch escapes from the handler and from `balance_recipe`.
   */
  function TrySubsets<S>(eng: Engine<S>, groups: seq<seq<MaterialInfo>>, target: Material,
                         sub: Option<Substitution>, all: seq<Material>): Attempt<S>
  {
    if groups == [] then Skipped
    else
      match TryBalance(eng, groups[0], target, sub, all)
      case Ok(b) => Recorded(b)
      case Err(e) => if CaughtInSubsetLoop(e) then TrySubsets(eng, groups[1..], target, sub, all) else Raised(e)
  }

  /** The attempt on group `k` fails with an error the subset loop catches. */
  predicate FailsQuietly<S>(eng: Engine<S>, group: seq<MaterialInfo>, target: Material,
                            sub: Option<Substitution>, all: seq<Material>) {
    TryBalance(eng, group, target, sub, all).Err? && CaughtInSubsetLoop(TryBalance(eng, group, target, sub, all).error)
  }

  /**
    The first group that balances is recorded and no later group is tried; the pair is
    skipped when every group fails with a caught error (in particular when there is
    no group); otherwise the first uncaught error escapes (TrySubsetsEscapes).
   */
  lemma {:induction false} TrySubsetsFirstSuccess<S>(eng: Engine<S>, groups: seq<seq<MaterialInfo>>, target: Material,
                                                     sub: Option<Substitution>, all: seq<Material>, b: Balanced<S>)
    ensures TrySubsets(eng, groups, target, sub, all) == Recorded(b) <==>
      exists k :: 0 <= k < |groups| && TryBalance(eng, groups[k], target, sub, all) == Ok(b)
        && forall j :: 0 <= j < k ==> FailsQuietly(eng, groups[j], target, sub, all)
    ensures TrySubsets(eng, groups, target, sub, all) == Skipped <==>
      forall j :: 0 <= j < |groups| ==> FailsQuietly(eng, groups[j], target, sub, all)
  {
    if groups != [] {
      var rest := groups[1..];
      TrySubsetsFirstSuccess(eng, rest, target, sub, all, b);
      assert forall j :: 0 <= j < |rest| ==> rest[j] == groups[j + 1];
      if TryBalance(eng, groups[0], target, sub, all).Ok? {
      } else if CaughtInSubsetLoop(TryBalance(eng, groups[0], target, sub, all).error) {
        if TrySubsets(eng, groups, target, sub, all) == Recorded(b) {
          var k :| 0 <= k < |rest| && TryBalance(eng, rest[k], target, sub, all) == Ok(b)
            && forall j :: 0 <= j < k ==> FailsQuietly(eng, rest[j], target, sub, all);
          assert TryBalance(eng, groups[k + 1], target, sub, all) == Ok(b);
        }
        if forall j :: 0 <= j < |rest| ==> FailsQuietly(eng, rest[j], target, sub, all) {
          assert forall j :: 0 <= j < |groups| ==> FailsQuietly(eng, groups[j], target, sub, all) by {
            forall j | 0 <= j < |groups| ensures FailsQuietly(eng, groups[j], target, sub, all) {
              if j > 0 { assert groups[j] == rest[j - 1]; }
            }
          }
        }
      } else {
        assert !FailsQuietly(eng, groups[0], target, sub, all);
      }
    }
  }

  /**
    An error escapes from the subset loop exactly when some group fails with an error
    the loop does not catch and every group before it fails with one it does catch;
    the escaping error is that group's.
   */
  lemma TrySubsetsEscapes<S>(eng: Engine<S>, groups: seq<seq<MaterialInfo>>, target: Material,
                             sub: Option<Substitution>, all: seq<Material>, e: ErrorKind)
    ensures TrySubsets(eng, groups, target, sub, all) == Raised(e) <==>
      exists k :: 0 <= k < |groups| && TryBalance(eng, groups[k], target, sub, all) == Err(e) && !CaughtInSubsetLoop(e)
        && forall j :: 0 <= j < k ==> FailsQuietly(eng, groups[j], target, sub, all)
  {
    if TrySubsets(eng, groups, target, sub, all) == Raised(e) {
      var k := EscapeWitness(eng, groups, target, sub, all, e);
    }
    if exists k :: 0 <= k < |groups| && TryBalance(eng, groups[k], target, sub, all) == Err(e) && !CaughtInSubsetLoop(e)
         && forall j :: 0 <= j < k ==> FailsQuietly(eng, groups[j], target, sub, all) {
      var k :| 0 <= k < |groups| && TryBalance(eng, groups[k], target, sub, all) == Err(e) && !CaughtInSubsetLoop(e)
        && forall j :: 0 <= j < k ==> FailsQuietly(eng, groups[j], target, sub, all);
      EscapeAt(eng, groups, target, sub, all, e, k);
    }
  }

  /** An escaping error comes from a group whose predecessors all fail quietly. */
  lemma {:induction false} EscapeWitness<S>(eng: Engine<S>, groups: seq<seq<MaterialInfo>>, target: Material,
                                            sub: Option<Substitution>, all: seq<Material>, e: ErrorKind) returns (k: nat)
    requires TrySubsets(eng, groups, target, sub, all) == Raised(e)
    ensures k < |groups| && TryBalance(eng, groups[k], target, sub, all) == Err(e) && !CaughtInSubsetLoop(e)
    ensures forall j :: 0 <= j < k ==> FailsQuietly(eng, groups[j], target, sub, all)
  {
    var first := TryBalance(eng, groups[0], target, sub, all);
    if first.Err? && CaughtInSubsetLoop(first.error) {
      var rest := groups[1..];
      var m := EscapeWitness(eng, rest, target, sub, all, e);
      k := m + 1;
      assert groups[k] == rest[m];
      forall j | 0 <= j < k ensures FailsQuietly(eng, groups[j], target, sub, all) {
        if j > 0 { assert groups[j] == rest[j - 1]; }
      }
    } else {
      k := 0;
    }
  }

  /** A group that fails with an uncaught error, after groups that all fail quietly, ends the loop with that error. */
  lemma {:induction false} EscapeAt<S>(eng: Engine<S>, groups: seq<seq<MaterialInfo>>, target: Material,
                                       sub: Option<Substitution>, all: seq<Material>, e: ErrorKind, k: nat)
    requires k < |groups| && TryBalance(eng, groups[k], target, sub, all) == Err(e) && !CaughtInSubsetLoop(e)
    requires forall j :: 0 <= j < k ==> FailsQuietly(eng, groups[j], target, sub, all)
    ensures TrySubsets(eng, groups, target, sub, all) == Raised(e)
    decreases k
  {
    if k > 0 {
      var rest := groups[1..];
      assert FailsQuietly(eng, groups[0], target, sub, all);
      assert rest[k - 1] == groups[k];
      forall j | 0 <= j < k - 1 ensures FailsQuietly(eng, rest[j], target, sub, all) {
        assert rest[j] == groups[j + 1];
      }
      EscapeAt(eng, rest, target, sub, all, e, k - 1);
    }
  }

  /** Lines 207-254 for one pair, given the screened precursors and the sentences. */
  function AttemptPair<S>(eng: Engine<S>, ptb: seq<MaterialInfo>, sentences: seq<string>,
                          all: seq<Material>, pair: Pair): (a: Attempt<S>)
    ensures a.Recorded? ==>
      a.balanced.substitution == pair.substitution && a.balanced.targetFormula == pair.target.materialFormula
    ensures ToInfo(pair.target, pair.substitution, eng) == Err(FormulaException) ==> a == Skipped
    ensures ToInfo(pair.target, pair.substitution, eng).Err? && ToInfo(pair.target, pair.substitution, eng).error != FormulaException ==>
      a == Raised(ToInfo(pair.target, pair.substitution, eng).error)
    ensures ToInfo(pair.target, pair.substitution, eng).Ok? ==>
      var first := TryBalance(eng, ptb, pair.target, pair.substitution, all);
      && (first.Ok? ==> a == Recorded(first.value))
      && (first.Err? && first.error != TooManyPrecursors ==> a == Skipped)
      && (first == Err(TooManyPrecursors) ==>
            a == TrySubsets(eng, SentenceGroups(ptb, sentences), pair.target, pair.substitution, all))
      && (first == Err(TooManyPrecursors) && SentenceGroups(ptb, sentences) == [] ==> a == Skipped)
  {
    match ToInfo(pair.target, pair.substitution, eng)
    case Err(e) => if IsInstance(e, FormulaException) then Skipped else Raised(e)
    case Ok(_) =>
      match TryBalance(eng, ptb, pair.target, pair.substitution, all)
      case Ok(b) => Recorded(b)
      case Err(e) =>
        match FirstAttemptHandler(e)
        case RetryWithSentences =>
          TrySubsetsRecords(eng, SentenceGroups(ptb, sentences), pair.target, pair.substitution, all);
          TrySubsets(eng, SentenceGroups(ptb, sentences), pair.target, pair.substitution, all)
        case _ => Skipped
  }

  lemma {:induction false} TrySubsetsRecords<S>(eng: Engine<S>, groups: seq<seq<MaterialInfo>>, target: Material,
                                                sub: Option<Substitution>, all: seq<Material>)
    ensures TrySubsets(eng, groups, target, sub, all).Recorded? ==>
      TrySubsets(eng, groups, target, sub, all).balanced.substitution == sub
      && TrySubsets(eng, groups, target, sub, all).balanced.targetFormula == target.materialFormula
  {
    if groups != [] {
      TrySubsetsRecords(eng, groups[1..], target, sub, all);
    }
  }

  /**
    The bookkeeping of `balance_recipe`'s loop over any run of attempts: a recorded solution is
    appended, a skipped attempt dropped, and the first raised error ends the run.
   */
  function Gather<A, S>(attempt: A -> Attempt<S>, xs: seq<A>): (r: Result<seq<Balanced<S>>, ErrorKind>)
    ensures r.Ok? ==> |r.value| <= |xs|
  {
    if xs == [] then Ok([])
    else
      var solutions :- Gather(attempt, xs[..|xs| - 1]);
      match attempt(xs[|xs| - 1])
      case Skipped => Ok(solutions)
      case Recorded(b) => Ok(solutions + [b])
      case Raised(e) => Err(e)
  }

  /** The run fails exactly when some attempt raises, and then with the first such error. */
  lemma {:induction false} GatherFails<A, S>(attempt: A -> Attempt<S>, xs: seq<A>)
    ensures Gather(attempt, xs).Err? <==> exists i :: 0 <= i < |xs| && attempt(xs[i]).Raised?
    ensures Gather(attempt, xs).Err? ==>
      exists i :: 0 <= i < |xs|
        && attempt(xs[i]) == Raised(Gather(attempt, xs).error)
        && forall j :: 0 <= j < i ==> !attempt(xs[j]).Raised?
  {
    if xs != [] {
      var init := xs[..|xs| - 1];
      GatherFails(attempt, init);
      assert forall j :: 0 <= j < |init| ==> init[j] == xs[j];
      if Gather(attempt, init).Err? {
        var i :| 0 <= i < |init|
          && attempt(init[i]) == Raised(Gather(attempt, init).error)
          && forall j :: 0 <= j < i ==> !attempt(init[j]).Raised?;
        assert attempt(xs[i]).Raised?;
      } else if attempt(xs[|xs| - 1]).Raised? {
        assert forall j :: 0 <= j < |xs| - 1 ==> !attempt(xs[j]).Raised?;
      } else {
        forall i | 0 <= i < |xs| ensures !attempt(xs[i]).Raised? {
          if i < |init| { assert xs[i] == init[i]; }
        }
      }
    }
  }

  /** On success the solutions are the recorded attempts in order; `idx` names where each came from. */
  lemma {:induction false} GatherInOrder<A, S>(attempt: A -> Attempt<S>, xs: seq<A>) returns (idx: seq<nat>)
    requires Gather(attempt, xs).Ok?
    ensures |idx| == |Gather(attempt, xs).value|
    ensures forall k :: 0 <= k < |idx| ==> idx[k] < |xs| && attempt(xs[idx[k]]) == Recorded(Gather(attempt, xs).value[k])
    ensures forall k, l :: 0 <= k < l < |idx| ==> idx[k] < idx[l]
    ensures forall i :: 0 <= i < |xs| && attempt(xs[i]).Recorded? ==> i in idx
  {
    if xs == [] {
      idx := [];
    } else {
      var last := |xs| - 1;
      var init := xs[..last];
      var prev := GatherInOrder(attempt, init);
      assert forall j :: 0 <= j < |init| ==> init[j] == xs[j];
      var sol := Gather(attempt, init).value;
      match attempt(xs[last])
      case Skipped =>
        idx := prev;
      case Recorded(b) =>
        idx := prev + [last];
        assert Gather(attempt, xs).value == sol + [b];
    }
  }

  /** Once a prefix of the run raises, the attempts after it make no difference. */
  lemma {:induction false} GatherStaysErr<A, S>(attempt: A -> Attempt<S>, xs: seq<A>, i: nat)
    requires i <= |xs| && Gather(attempt, xs[..i]).Err?
    ensures Gather(attempt, xs) == Gather(attempt, xs[..i])
    decreases |xs| - i
  {
    if i < |xs| {
      assert xs[..i + 1][..i] == xs[..i];
      GatherStaysErr(attempt, xs, i + 1);
    } else {
      assert xs[..i] == xs;
    }
  }

  /** One pair's attempt, as a function of the pair. */
  function AttemptOf<S>(eng: Engine<S>, ptb: seq<MaterialInfo>, sentences: seq<string>,
                        all: seq<Material>): Pair -> Attempt<S> {
    (pair: Pair) => AttemptPair(eng, ptb, sentences, all, pair)
  }

  /** The `solutions` list `balance_recipe` returns for the pairs, or the error that escapes. */
  function RecordAll<S>(eng: Engine<S>, ptb: seq<MaterialInfo>, sentences: seq<string>,
                        all: seq<Material>, pairs: seq<Pair>): (r: Result<seq<Balanced<S>>, ErrorKind>)
    ensures r.Ok? ==> |r.value| <= |pairs|
  {
    Gather(AttemptOf(eng, ptb, sentences, all), pairs)
  }

  /** The call fails exactly when some pair raises, and then with the first such pair's error. */
  lemma RecordAllFails<S>(eng: Engine<S>, ptb: seq<MaterialInfo>, sentences: seq<string>,
                             all: seq<Material>, pairs: seq<Pair>)
    ensures RecordAll(eng, ptb, sentences, all, pairs).Err? <==>
      exists i :: 0 <= i < |pairs| && AttemptPair(eng, ptb, sentences, all, pairs[i]).Raised?
    ensures RecordAll(eng, ptb, sentences, all, pairs).Err? ==>
      exists i :: 0 <= i < |pairs|
        && AttemptPair(eng, ptb, sentences, all, pairs[i]) == Raised(RecordAll(eng, ptb, sentences, all, pairs).error)
        && forall j :: 0 <= j < i ==> !AttemptPair(eng, ptb, sentences, all, pairs[j]).Raised?
  {
    GatherFails(AttemptOf(eng, ptb, sentences, all), pairs);
  }

  /**
    On success the solutions are exactly the recorded attempts, in pair order: `idx`
    names, for each solution, the pair it came from.
   */
  lemma RecordAllInOrder<S>(eng: Engine<S>, ptb: seq<MaterialInfo>, sentences: seq<string>,
                               all: seq<Material>, pairs: seq<Pair>) returns (idx: seq<nat>)
    requires RecordAll(eng, ptb, sentences, all, pairs).Ok?
    ensures |idx| == |RecordAll(eng, ptb, sentences, all, pairs).value|
    ensures forall k :: 0 <= k < |idx| ==>
      && idx[k] < |pairs|
      && AttemptPair(eng, ptb, sentences, all, pairs[idx[k]]) == Recorded(RecordAll(eng, ptb, sentences, all, pairs).value[k])
    ensures forall k, l :: 0 <= k < l < |idx| ==> idx[k] < idx[l]
    ensures forall i :: 0 <= i < |pairs| && AttemptPair(eng, ptb, sentences, all, pairs[i]).Recorded? ==> i in idx
  {
    idx := GatherInOrder(AttemptOf(eng, ptb, sentences, all), pairs);
  }

  /** Every solution is for one of the targets, with a substitution drawn from that target's choices. */
  lemma SolutionsComeFromTargets<S>(eng: Engine<S>, ptb: seq<MaterialInfo>, sentences: seq<string>,
                                    all: seq<Material>, targets: seq<Material>, orders: seq<seq<string>>, b: Balanced<S>)
    requires OrdersFit(targets, orders)
    requires RecordAll(eng, ptb, sentences, all, Expansion(targets, orders)).Ok?
    requires b in RecordAll(eng, ptb, sentences, all, Expansion(targets, orders)).value
    ensures exists t ::
      && t in targets
      && b.targetFormula == t.materialFormula
      && (b.substitution.None? <==> !Expands(t))
      && (b.substitution.Some? ==> SingleChoice(t, b.substitution))
  {
    var pairs := Expansion(targets, orders);
    var idx := RecordAllInOrder(eng, ptb, sentences, all, pairs);
    var k :| 0 <= k < |RecordAll(eng, ptb, sentences, all, pairs).value| && RecordAll(eng, ptb, sentences, all, pairs).value[k] == b;
    var p := pairs[idx[k]];
    ExpansionTargets(targets, orders);
    ExpansionShape(targets, orders);
    assert p in pairs;
  }

  /** Running one pair of `balance_recipe`'s loop, as the statements of lines 207-254 do. */
  method BalancePair<S>(eng: Engine<S>, ptb: seq<MaterialInfo>, sentences: seq<string>,
                        all: seq<Material>, pair: Pair) returns (a: Attempt<S>)
    ensures a == AttemptPair(eng, ptb, sentences, all, pair)
  {
    var targetObject := MaterialDictToInfo(pair.target, pair.substitution, eng);
    if targetObject.Err? {
      if targetObject.error == FormulaException {
        return Skipped;
      }
      return Raised(targetObject.error);
    }
    var first := TryBalance(eng, ptb, pair.target, pair.substitution, all);
    if first.Ok? {
      return Recorded(first.value);
    }
    if FirstAttemptHandler(first.error) != RetryWithSentences {
      return Skipped;
    }
    var groups := FindPrecursorsInSameSentence(ptb, sentences);
    a := Skipped;
    var success := false;
    for i := 0 to |groups|
      invariant !success && a == Skipped
      invariant TrySubsets(eng, groups, pair.target, pair.substitution, all)
        == TrySubsets(eng, groups[i..], pair.target, pair.substitution, all)
    {
      assert groups[i..][1..] == groups[i + 1..];
      var attempt := TryBalance(eng, groups[i], pair.target, pair.substitution, all);
      if attempt.Ok? {
        a := Recorded(attempt.value);
        success := true;
        break;
      } else if !CaughtInSubsetLoop(attempt.error) {
        return Raised(attempt.error);
      }
    }
  }

  /**
    `balance_recipe`: expand the targets, screen the precursors, then balance every
    pair in order, collecting what succeeds. Errors from the expansion and the
    screening, and errors the handlers do not catch, escape.
   */
  method BalanceRecipe<S>(precursors: seq<Material>, targets: seq<Material>, sentences: Option<seq<string>>, eng: Engine<S>)
    returns (r: Result<seq<Balanced<S>>, ErrorKind>, ghost orders: seq<seq<string>>)
    ensures (exists i :: 0 <= i < |targets| && targets[i].composition == []) ==> r == Err(OtherException)
    ensures (forall i :: 0 <= i < |targets| ==> targets[i].composition != []) ==>
      && OrdersFit(targets, orders)
      && (Screened(precursors, eng).Err? ==> r == Err(Screened(precursors, eng).error))
      && (Screened(precursors, eng).Ok? ==>
            r == RecordAll(eng, Screened(precursors, eng).value, sentences.GetOr([]), precursors, Expansion(targets, orders)))
  {
    var texts := sentences.GetOr([]);
    var targetsToBalance;
    targetsToBalance, orders := SubstituteElementVars(targets);
    if targetsToBalance.Err? {
      return Err(targetsToBalance.error), orders;
    }
    var screened := ScreenGoodPrecursors(precursors, eng);
    if screened.Err? {
      return Err(screened.error), orders;
    }
    r := BalancePairs(eng, screened.value, texts, precursors, targetsToBalance.value);
  }

  /** The loop of lines 206-254 over the expanded pairs. */
  method BalancePairs<S>(eng: Engine<S>, ptb: seq<MaterialInfo>, texts: seq<string>,
                         precursors: seq<Material>, pairs: seq<Pair>) returns (r: Result<seq<Balanced<S>>, ErrorKind>)
    ensures r == RecordAll(eng, ptb, texts, precursors, pairs)
  {
    var solutions := [];
    for i := 0 to |pairs|
      invariant RecordAll(eng, ptb, texts, precursors, pairs[..i]) == Ok(solutions)
    {
      assert pairs[..i + 1][..i] == pairs[..i];
      var a := BalancePair(eng, ptb, texts, precursors, pairs[i]);
      match a
      case Skipped =>
      case Recorded(b) => solutions := solutions + [b];
      case Raised(e) =>
        RecordAllStaysErr(eng, ptb, texts, precursors, pairs, i + 1);
        return Err(e);
    }
    assert pairs[..|pairs|] == pairs;
    r := Ok(solutions);
  }

  /** Once a prefix of the pairs raises, the pairs after it are never attempted. */
  lemma RecordAllStaysErr<S>(eng: Engine<S>, ptb: seq<MaterialInfo>, texts: seq<string>,
                                precursors: seq<Material>, pairs: seq<Pair>, i: nat)
    requires i <= |pairs| && RecordAll(eng, ptb, texts, precursors, pairs[..i]).Err?
    ensures RecordAll(eng, ptb, texts, precursors, pairs) == RecordAll(eng, ptb, texts, precursors, pairs[..i])
  {
    GatherStaysErr(AttemptOf(eng, ptb, texts, precursors), pairs, i);
  }
}
