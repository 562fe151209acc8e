/**
  The test helpers of reaction_completer/test/reaction_tester.py: the compact
  composition-string parser `simple_parse`, `make_material(s)`, the equation parser
  `_parse_equation` and the comparison `assertReactionsEqual`.
 */
module ReactionTester {
  import opened Wrappers
  import opened Text
  import opened Materials

  /** The Python exceptions the helpers can raise. */
  datatype PyError =
    | ValueError(expected: nat, got: nat)  // unpacking `got` values into `expected` names
    | TypeError                            // ordering a `set` against a `list`

  /** `a, b = pieces` */
  function Unpack2(pieces: seq<string>): (r: Result<(string, string), PyError>)
    ensures r.Ok? <==> |pieces| == 2
    ensures r.Ok? ==> r.value == (pieces[0], pieces[1])
    ensures r.Err? ==> r.error == ValueError(2, |pieces|)
  {
    if |pieces| == 2 then Ok((pieces[0], pieces[1])) else Err(ValueError(2, |pieces|))
  }

  // ---------------------------------------------------------------------------
  // Dictionaries filled key by key
  // ---------------------------------------------------------------------------

  /** The dictionary obtained by assigning `d[k] = v` for each pair in order. */
  function Assign<V>(kvs: seq<(string, V)>): (m: map<string, V>)
    ensures m.Keys == set i | 0 <= i < |kvs| :: kvs[i].0
  {
    if kvs == [] then map[]
    else
      var n := |kvs| - 1;
      var m := Assign(kvs[..n]);
      assert forall i :: 0 <= i < n ==> kvs[..n][i] == kvs[i];
      m[kvs[n].0 := kvs[n].1]
  }

  /** A key assigned several times keeps its last value. */
  lemma {:induction false} AssignLastWins<V>(kvs: seq<(string, V)>, i: nat)
    requires i < |kvs|
    requires forall j :: i < j < |kvs| ==> kvs[j].0 != kvs[i].0
    ensures kvs[i].0 in Assign(kvs) && Assign(kvs)[kvs[i].0] == kvs[i].1
  {
    var n := |kvs| - 1;
    if i < n {
      AssignLastWins(kvs[..n], i);
    }
  }

  // ---------------------------------------------------------------------------
  // Lists built element by element from calls that may raise
  // ---------------------------------------------------------------------------

  /** `[f(x) for x in xs]` for an `f` that cannot raise. */
  function Map<A, B>(f: A -> B, xs: seq<A>): (r: seq<B>)
    ensures |r| == |xs| && forall i :: 0 <= i < |xs| ==> r[i] == f(xs[i])
  {
    seq(|xs|, i requires 0 <= i < |xs| => f(xs[i]))
  }

  lemma MapSnoc<A, B>(f: A -> B, xs: seq<A>, i: nat)
    requires i < |xs|
    ensures Map(f, xs[..i + 1]) == Map(f, xs[..i]) + [f(xs[i])]
  {
  }

  /** `[f(x) for x in xs]`: the results in order, or the error of the first call that raises. */
  function Collect<A, B, E>(f: A -> Result<B, E>, xs: seq<A>): (r: Result<seq<B>, E>)
    ensures r.Ok? ==> |r.value| == |xs|
  {
    if xs == [] then Ok([])
    else
      var init :- Collect(f, xs[..|xs| - 1]);
      var last :- f(xs[|xs| - 1]);
      Ok(init + [last])
  }

  /** The list is built exactly when every call returns, and then holds their results in order. */
  lemma {:induction false} CollectEach<A, B, E>(f: A -> Result<B, E>, xs: seq<A>)
    ensures Collect(f, xs).Ok? <==> forall i :: 0 <= i < |xs| ==> f(xs[i]).Ok?
    ensures Collect(f, xs).Ok? ==> forall i :: 0 <= i < |xs| ==> Collect(f, xs).value[i] == f(xs[i]).value
  {
    if xs != [] {
      var n := |xs| - 1;
      CollectEach(f, xs[..n]);
      assert forall i :: 0 <= i < n ==> xs[..n][i] == xs[i];
    }
  }

  /** A failure reports the first call that raises. */
  lemma {:induction false} CollectFirstError<A, B, E>(f: A -> Result<B, E>, xs: seq<A>) returns (k: nat)
    requires Collect(f, xs).Err?
    ensures k < |xs| && f(xs[k]) == Err(Collect(f, xs).error)
    ensures forall i :: 0 <= i < k ==> f(xs[i]).Ok?
  {
    var n := |xs| - 1;
    assert forall i :: 0 <= i < n ==> xs[..n][i] == xs[i];
    if Collect(f, xs[..n]).Err? {
      k := CollectFirstError(f, xs[..n]);
    } else {
      CollectEach(f, xs[..n]);
      k := n;
    }
  }

  /** Once a prefix fails, the elements after it are never reached. */
  lemma {:induction false} CollectStaysErr<A, B, E>(f: A -> Result<B, E>, xs: seq<A>, i: nat)
    requires i <= |xs| && Collect(f, xs[..i]).Err?
    ensures Collect(f, xs) == Collect(f, xs[..i])
    decreases |xs| - i
  {
    if i < |xs| {
      assert xs[..i + 1][..i] == xs[..i];
      CollectStaysErr(f, xs, i + 1);
    } else {
      assert xs[..i] == xs;
    }
  }

  /** Building the list of a concatenation is building both lists. */
  lemma {:induction false} CollectAppend<A, B, E>(f: A -> Result<B, E>, a: seq<A>, b: seq<A>)
    ensures Collect(f, a + b).Ok? <==> Collect(f, a).Ok? && Collect(f, b).Ok?
    ensures Collect(f, a + b).Ok? ==> Collect(f, a + b).value == Collect(f, a).value + Collect(f, b).value
    decreases |b|
  {
    if b == [] {
      assert a + b == a;
    } else {
      var n := |b| - 1;
      assert (a + b)[..|a + b| - 1] == a + b[..n];
      assert (a + b)[|a + b| - 1] == b[n];
      CollectAppend(f, a, b[..n]);
    }
  }

  /** The last element of `xs` occurs in its permutation `ys`; taking both out leaves permutations. */
  lemma RemoveMatching<A>(xs: seq<A>, ys: seq<A>) returns (j: nat)
    requires |xs| > 0 && multiset(xs) == multiset(ys)
    ensures j < |ys| && ys == ys[..j] + [xs[|xs| - 1]] + ys[j + 1..]
    ensures multiset(xs[..|xs| - 1]) == multiset(ys[..j] + ys[j + 1..])
  {
    var n := |xs| - 1;
    var x := xs[n];
    SplitAround(xs, n);
    assert x in multiset(ys);
    j :| 0 <= j < |ys| && ys[j] == x;
    SplitAround(ys, j);
    var front, back := ys[..j], ys[j + 1..];
    assert multiset(xs) == multiset(xs[..n]) + multiset{x};
    assert multiset(ys) == multiset(front + back) + multiset{x};
    MultisetCancel(multiset(xs[..n]), multiset(front + back), x);
  }

  lemma SplitAround<A>(ys: seq<A>, j: nat)
    requires j < |ys|
    ensures ys == ys[..j] + [ys[j]] + ys[j + 1..]
  {
    assert ys == ys[..j] + ys[j..];
    assert ys[j..] == [ys[j]] + ys[j + 1..];
  }

  lemma MultisetCancel<A>(a: multiset<A>, b: multiset<A>, x: A)
    requires a + multiset{x} == b + multiset{x}
    ensures a == b
  {
    assert a == a + multiset{x} - multiset{x};
  }

  /** Reordering the inputs reorders the results: when one order succeeds, every order does, with the same multiset. */
  lemma {:induction false} CollectPermutation<A, B, E>(f: A -> Result<B, E>, xs: seq<A>, ys: seq<A>)
    requires multiset(xs) == multiset(ys) && Collect(f, xs).Ok?
    ensures Collect(f, ys).Ok? && multiset(Collect(f, xs).value) == multiset(Collect(f, ys).value)
    decreases |xs|
  {
    if xs == [] {
      assert |ys| == |multiset(ys)| == 0;
    } else {
      var n := |xs| - 1;
      var x := xs[n];
      assert xs == xs[..n] + [x] + [];
      assert xs[..n] + [] == xs[..n];
      CollectAppend(f, xs[..n], [x]);
      CollectOne(f, x);
      CollectInsert(f, xs[..n], x, []);
      var j := RemoveMatching(xs, ys);
      var front, back := ys[..j], ys[j + 1..];
      CollectPermutation(f, xs[..n], front + back);
      CollectInsert(f, front, x, back);
    }
  }

  lemma CollectOne<A, B, E>(f: A -> Result<B, E>, x: A)
    ensures Collect(f, [x]).Ok? <==> f(x).Ok?
    ensures f(x).Ok? ==> Collect(f, [x]).value == [f(x).value]
  {
    assert [x][..0] == [];
  }

  /** Inserting one more input that succeeds adds its result to the multiset of results. */
  lemma CollectInsert<A, B, E>(f: A -> Result<B, E>, front: seq<A>, x: A, back: seq<A>)
    requires Collect(f, front + back).Ok? && f(x).Ok?
    ensures Collect(f, front + [x] + back).Ok?
    ensures multiset(Collect(f, front + [x] + back).value)
         == multiset(Collect(f, front + back).value) + multiset{f(x).value}
  {
    CollectAppend(f, front, back);
    CollectAppend(f, front, [x]);
    CollectAppend(f, front + [x], back);
    CollectOne(f, x);
    var cf, cb := Collect(f, front).value, Collect(f, back).value;
    assert Collect(f, front + [x] + back).value == cf + [f(x).value] + cb;
  }

  // ---------------------------------------------------------------------------
  // simple_parse
  // ---------------------------------------------------------------------------

  /** What `simple_parse` returns: `(material_composition, elements_vars, additives)`. */
  datatype Parsed = Parsed(composition: seq<Component>, elementsVars: map<string, seq<string>>, additives: seq<string>)

  /** Lines 32-35: the composition section and the `&`-separated additives after a single `<`. */
  function CutAdditives(s: string): Result<(string, seq<string>), PyError> {
    if '<' in s then
      var halves :- Unpack2(Split(s, Literal("<")));
      Ok((halves.0, Split(halves.1, Literal("&"))))
    else Ok((s, []))
  }

  /** Line 41 and 42: `Var:v1,v2,...` as the pair `(Var, [v1, v2, ...])`. */
  function VarEntry(e: string): Result<(string, seq<string>), PyError> {
    var halves :- Unpack2(Split(e, Literal(":")));
    Ok((halves.0, Split(halves.1, Literal(","))))
  }

  /** Lines 37-42: the composition section and the `elements_vars` dictionary after a single `?`. */
  function CutVars(s: string): Result<(string, map<string, seq<string>>), PyError> {
    if '?' in s then
      var halves :- Unpack2(Split(s, Literal("?")));
      var entries :- Collect(VarEntry, Split(halves.1, Literal(";")));
      Ok((halves.0, Assign(entries)))
    else Ok((s, map[]))
  }

  /** Lines 54-58: `El:amount` as `(El, amount)`, and a bare `El` with amount `"1.0"`. */
  function ParseElement(pair: string): (string, string) {
    var parts := SplitOnce(pair, Literal(":"));
    if |parts| == 1 then (parts[0], "1.0") else (parts[0], parts[1])
  }

  function ElementPairs(pairs: seq<string>): (r: seq<(string, string)>)
    ensures |r| == |pairs| && forall i :: 0 <= i < |pairs| ==> r[i] == ParseElement(pairs[i])
  {
    Map(ParseElement, pairs)
  }

  /** Lines 47-63: one `;`-separated component. */
  function ParseComponent(c: string): Component {
    var parts := SplitOnce(c, Literal("--"));
    var amount := if |parts| == 1 then "1.0" else parts[0];
    var elements := parts[|parts| - 1];
    Component(amount, Assign(ElementPairs(Split(elements, Literal("+")))), None)
  }

  function Components(cs: seq<string>): (r: seq<Component>)
    ensures |r| == |cs| && forall i :: 0 <= i < |cs| ==> r[i] == ParseComponent(cs[i])
  {
    Map(ParseComponent, cs)
  }

  /** `simple_parse(composition_string)`, or the `ValueError` it raises. */
  function Parse(s: string): Result<Parsed, PyError> {
    var cut :- CutAdditives(StripWhitespace(s));
    var vars :- CutVars(cut.0);
    Ok(Parsed(Components(Split(vars.0, Literal(";"))), vars.1, cut.1))
  }

  /** Lines 40-42: the loop filling `elements_vars`. */
  method ReadElementsVars(entries: seq<string>) returns (r: Result<map<string, seq<string>>, PyError>)
    ensures Collect(VarEntry, entries).Err? ==> r == Err(Collect(VarEntry, entries).error)
    ensures Collect(VarEntry, entries).Ok? ==> r == Ok(Assign(Collect(VarEntry, entries).value))
  {
    var elementsVars := map[];
    for i := 0 to |entries|
      invariant Collect(VarEntry, entries[..i]).Ok?
      invariant elementsVars == Assign(Collect(VarEntry, entries[..i]).value)
    {
      assert entries[..i + 1][..i] == entries[..i];
      var parts := Split(entries[i], Literal(":"));
      if |parts| != 2 {
        CollectStaysErr(VarEntry, entries, i + 1);
        return Err(ValueError(2, |parts|));
      }
      elementsVars := elementsVars[parts[0] := Split(parts[1], Literal(","))];
    }
    assert entries[..|entries|] == entries;
    r := Ok(elementsVars);
  }

  /** Lines 52-59: the loop filling `elements_dict`. */
  method ReadElements(pairs: seq<string>) returns (elementsDict: map<string, string>)
    ensures elementsDict == Assign(ElementPairs(pairs))
  {
    elementsDict := map[];
    for j := 0 to |pairs|
      invariant elementsDict == Assign(ElementPairs(pairs[..j]))
    {
      var parts := SplitOnce(pairs[j], Literal(":"));
      var element, amount;
      if |parts| == 1 {
        element, amount := parts[0], "1.0";
      } else {
        element, amount := parts[0], parts[1];
      }
      ElementPairsStep(pairs, j, element, amount);
      elementsDict := elementsDict[element := amount];
    }
    assert pairs[..|pairs|] == pairs;
  }

  /** Reading pair `j` as `(element, amount)` assigns that entry after those before it. */
  lemma ElementPairsStep(pairs: seq<string>, j: nat, element: string, amount: string)
    requires j < |pairs| && ParseElement(pairs[j]) == (element, amount)
    ensures Assign(ElementPairs(pairs[..j + 1])) == Assign(ElementPairs(pairs[..j]))[element := amount]
  {
    MapSnoc(ParseElement, pairs, j);
    var kvs := ElementPairs(pairs[..j + 1]);
    assert kvs[..j] == ElementPairs(pairs[..j]);
  }

  /** Lines 44-63: the loop building `material_composition`. */
  method ReadCompositions(compositions: seq<string>) returns (materialComposition: seq<Component>)
    ensures materialComposition == Components(compositions)
  {
    materialComposition := [];
    for i := 0 to |compositions|
      invariant materialComposition == Components(compositions[..i])
    {
      var comp := ReadComponent(compositions[i]);
      ComponentsSnoc(compositions, i);
      materialComposition := materialComposition + [comp];
    }
    assert compositions[..|compositions|] == compositions;
  }

  lemma ComponentsSnoc(cs: seq<string>, i: nat)
    requires i < |cs|
    ensures Components(cs[..i + 1]) == Components(cs[..i]) + [ParseComponent(cs[i])]
  {
    MapSnoc(ParseComponent, cs, i);
  }

  /** Lines 47-63: one component, its optional `amount--` prefix and its `+`-separated elements. */
  method ReadComponent(composition: string) returns (comp: Component)
    ensures comp == ParseComponent(composition)
  {
    var parts := SplitOnce(composition, Literal("--"));
    var compAmount, elements;
    if |parts| == 1 {
      compAmount, elements := "1.0", parts[0];
    } else {
      compAmount, elements := parts[0], parts[1];
    }
    var elementsDict := ReadElements(Split(elements, Literal("+")));
    comp := Component(compAmount, elementsDict, None);
  }

  /** `simple_parse` as written: reassigning the string and filling the collections in loops. */
  method SimpleParse(compositionString: string) returns (r: Result<Parsed, PyError>)
    ensures r == Parse(compositionString)
  {
    var s := StripWhitespace(compositionString);

    var additives := [];
    if '<' in s {
      var halves := Split(s, Literal("<"));
      if |halves| != 2 {
        return Err(ValueError(2, |halves|));
      }
      s := halves[0];
      additives := Split(halves[1], Literal("&"));
    }

    var elementsVars := map[];
    if '?' in s {
      var halves := Split(s, Literal("?"));
      if |halves| != 2 {
        return Err(ValueError(2, |halves|));
      }
      s := halves[0];
      var read := ReadElementsVars(Split(halves[1], Literal(";")));
      if read.Err? {
        return Err(read.error);
      }
      elementsVars := read.value;
    }

    var materialComposition := ReadCompositions(Split(s, Literal(";")));
    r := Ok(Parsed(materialComposition, elementsVars, additives));
  }

  // ---------------------------------------------------------------------------
  // What simple_parse promises (the rules of lines 18-28)
  // ---------------------------------------------------------------------------

  /** Two pieces joined by a one-character marker that neither contains split back into them. */
  lemma SplitAtMarker(a: string, c: char, b: string)
    requires c !in a && c !in b
    ensures Split(a + [c] + b, Literal([c])) == [a, b]
  {
    LiteralMatchesAt([c], 0, [c]);
    SplitJoinMarked([a, b], [c], Literal([c]), 0);
    assert Join([a, b], [c]) == a + [c] + b;
  }

  /** Where a string splits on a marker into exactly two pieces, it is those pieces around the marker. */
  lemma TwoPiecesAroundMarker(s: string, c: char)
    requires |Split(s, Literal([c]))| == 2
    ensures s == Split(s, Literal([c]))[0] + [c] + Split(s, Literal([c]))[1]
  {
    var pieces := Split(s, Literal([c]));
    JoinSplit(s, [c]);
    assert pieces[1..] == [pieces[1]];
  }

  /** Rule 1: whitespace is ignored, so a string and its whitespace-free form parse alike. */
  lemma ParseIgnoresWhitespace(s: string)
    ensures Parse(StripWhitespace(s)) == Parse(s)
  {
    StripWhitespaceIdempotent(s);
  }

  /** Lines 32-35 on the whitespace-free string `t`. */
  lemma CutAdditivesMarkers(t: string)
    ensures '<' !in t ==> CutAdditives(t) == Ok((t, []))
    ensures multiset(t)['<'] >= 2 ==> CutAdditives(t) == Err(ValueError(2, multiset(t)['<'] + 1))
    ensures CutAdditives(t).Ok? ==> ('<' in t <==> CutAdditives(t).value.1 != [])
  {
    SplitCount(t, '<');
  }

  /**
    Lines 32-35: without `<` there are no additives; with two or more `<` the unpacking
    of line 34 fails with as many values as there are pieces.
   */
  lemma ParseAdditiveMarkers(s: string, t: string)
    requires t == StripWhitespace(s)
    ensures '<' !in t && Parse(s).Ok? ==> Parse(s).value.additives == []
    ensures multiset(t)['<'] >= 2 ==> Parse(s) == Err(ValueError(2, multiset(t)['<'] + 1))
    ensures Parse(s).Ok? ==> ('<' in t <==> Parse(s).value.additives != [])
  {
    CutAdditivesMarkers(t);
    if multiset(t)['<'] >= 2 {
      ParseTooManyMarkers(s, t);
    }
    ParseStages(s);
  }

  lemma ParseTooManyMarkers(s: string, t: string)
    requires StripWhitespace(s) == t && multiset(t)['<'] >= 2
    ensures Parse(s) == Err(ValueError(2, multiset(t)['<'] + 1))
  {
    CutAdditivesMarkers(t);
    ParseStages(s);
  }

  /** How `Parse` is staged: the additives cut comes first, and its error or its additives pass through. */
  lemma ParseStages(s: string)
    ensures var cut := CutAdditives(StripWhitespace(s));
      && (cut.Err? ==> Parse(s) == Err(cut.error))
      && (cut.Ok? ==> (Parse(s).Ok? <==> CutVars(cut.value.0).Ok?))
      && (Parse(s).Ok? ==> cut.Ok? && Parse(s).value.additives == cut.value.1)
  {
  }

  /** Rule 9: with exactly one `<`, the additives are the `&`-separated pieces after it, in order. */
  lemma ParseOneAdditiveMarker(s: string, before: string, after: string)
    requires StripWhitespace(s) == before + "<" + after
    requires '<' !in before && '<' !in after
    ensures Parse(s).Ok? <==> CutVars(before).Ok?
    ensures Parse(s).Ok? ==> Parse(s).value.additives == Split(after, Literal("&"))
  {
    CutAdditivesOneMarker(before, after);
    ParseStages(s);
  }

  lemma CutAdditivesOneMarker(before: string, after: string)
    requires '<' !in before && '<' !in after
    ensures CutAdditives(before + "<" + after) == Ok((before, Split(after, Literal("&"))))
  {
    SplitAtMarker(before, '<', after);
    assert (before + "<" + after)[|before|] == '<';
  }

  /** The text before the first marker of a two-piece split lacks any character the whole lacks. */
  lemma FirstPieceAvoids(s: string, c: char, d: char)
    requires |Split(s, Literal([c]))| == 2 && d !in s
    ensures d !in Split(s, Literal([c]))[0] && d !in Split(s, Literal([c]))[1]
  {
    TwoPiecesAroundMarker(s, c);
  }

  /** Rule 7: without `?` the `elements_vars` dictionary is empty. */
  lemma ParseWithoutVars(s: string)
    requires '?' !in StripWhitespace(s)
    ensures Parse(s).Ok? ==> Parse(s).value.elementsVars == map[]
  {
    var t := StripWhitespace(s);
    if '<' in t && |Split(t, Literal("<"))| == 2 {
      FirstPieceAvoids(t, '<', '?');
    }
  }

  /**
    Rules 3 and 7-8: with one `?` after the compositions, each `;`-separated entry must
    be `Var:values`; the dictionary assigns the entries in order.
   */
  lemma ParseOneVarsMarker(s: string, comps: string, vars: string)
    requires StripWhitespace(s) == comps + "?" + vars
    requires '?' !in comps && '?' !in vars && '<' !in comps && '<' !in vars
    ensures Parse(s).Ok? <==> Collect(VarEntry, Split(vars, Literal(";"))).Ok?
    ensures Parse(s).Ok? ==>
      && Parse(s).value.elementsVars == Assign(Collect(VarEntry, Split(vars, Literal(";"))).value)
      && Parse(s).value.composition == Components(Split(comps, Literal(";")))
      && Parse(s).value.additives == []
  {
    var t := StripWhitespace(s);
    assert '<' !in t by {
      assert t == comps + "?" + vars;
    }
    assert CutAdditives(t) == Ok((t, []));
    CutVarsOneMarker(comps, vars);
  }

  /**
    The documented full form `COMPOSITIONS ? SUBSTITUTIONS < ADDITIVES` (rules 2-9): the
    additives are cut first, then the variables; each part is read as in the simpler forms.
   */
  lemma ParseFullForm(s: string, comps: string, vars: string, adds: string)
    requires StripWhitespace(s) == comps + "?" + vars + "<" + adds
    requires '?' !in comps && '?' !in vars && '<' !in comps && '<' !in vars && '<' !in adds
    ensures Parse(s).Ok? <==> Collect(VarEntry, Split(vars, Literal(";"))).Ok?
    ensures Parse(s).Ok? ==>
      && Parse(s).value.elementsVars == Assign(Collect(VarEntry, Split(vars, Literal(";"))).value)
      && Parse(s).value.composition == Components(Split(comps, Literal(";")))
      && Parse(s).value.additives == Split(adds, Literal("&"))
  {
    var before := comps + "?" + vars;
    assert '<' !in before;
    CutAdditivesOneMarker(before, adds);
    CutVarsOneMarker(comps, vars);
    ParseStages(s);
  }

  lemma CutVarsOneMarker(comps: string, vars: string)
    requires '?' !in comps && '?' !in vars
    ensures var entries := Collect(VarEntry, Split(vars, Literal(";")));
      CutVars(comps + "?" + vars)
        == if entries.Ok? then Ok((comps, Assign(entries.value))) else Err(entries.error)
  {
    SplitAtMarker(comps, '?', vars);
    var t := comps + "?" + vars;
    assert t[|comps|] == '?';
  }

  /** Rule 8: an entry `Var:v1,...,vn` (no `:` or `,` inside the names) reads back as `(Var, [v1, ..., vn])`. */
  lemma VarEntryRoundTrip(name: string, values: seq<string>)
    requires |values| >= 1
    requires ':' !in name && forall i :: 0 <= i < |values| ==> ':' !in values[i] && ',' !in values[i]
    ensures VarEntry(name + ":" + Join(values, ",")) == Ok((name, values))
  {
    var joined := Join(values, ",");
    JoinAvoids(values, ",", ':');
    SplitAtMarker(name, ':', joined);
    assert name + ":" + joined == name + [':'] + joined;
    VarEntryOfHalves(name + ":" + joined, name, joined);
    LiteralMatchesAt(",", 0, ",");
    SplitJoinMarked(values, ",", Literal(","), 0);
  }

  lemma VarEntryOfHalves(e: string, name: string, rest: string)
    requires Split(e, Literal(":")) == [name, rest]
    ensures VarEntry(e) == Ok((name, Split(rest, Literal(","))))
  {
  }

  /**
    Rule 3 with neither `?` nor `<`: one composition record per `;`-separated part,
    in order, and nothing else.
   */
  lemma ParseCompositionsOnly(s: string, t: string)
    requires t == StripWhitespace(s) && '?' !in t && '<' !in t
    ensures Parse(s) == Ok(Parsed(Components(Split(t, Literal(";"))), map[], []))
    ensures |Parse(s).value.composition| == multiset(t)[';'] + 1
  {
    SplitCount(t, ';');
  }

  /** Rule 4: without `--` the amount is `"1.0"` and the whole part lists the elements. */
  lemma ComponentWithoutAmount(c: string)
    requires Find(c, Literal("--")).None?
    ensures ParseComponent(c) == Component("1.0", Assign(ElementPairs(Split(c, Literal("+")))), None)
  {
  }

  /**
    Rule 4: `amount--elements` gives that amount and those elements, for every amount in
    which `--` does not occur and that does not end in `-` (so `1e-3` and `-2` are read back).
   */
  lemma ComponentWithAmount(amount: string, elements: string)
    requires Find(amount, Literal("--")).None?
    requires amount == [] || amount[|amount| - 1] != '-'
    ensures ParseComponent(amount + "--" + elements)
      == Component(amount, Assign(ElementPairs(Split(elements, Literal("+")))), None)
  {
    var c := amount + "--" + elements;
    DashesFirstAfter(amount, elements);
    assert c[..|amount|] == amount;
    assert c[|amount| + 2..] == elements;
  }

  /** In `amount + "--" + elements` the first `--` is the one after `amount`. */
  lemma DashesFirstAfter(amount: string, elements: string)
    requires Find(amount, Literal("--")).None?
    requires amount == [] || amount[|amount| - 1] != '-'
    ensures Find(amount + "--" + elements, Literal("--")) == Some(|amount|)
  {
    var p := Literal("--");
    var s := amount + "--" + elements;
    LiteralMatchesAt(s, |amount|, "--");
    assert s[|amount|..|amount| + 2] == "--";
    forall j: nat | j < |amount| ensures !MatchesAt(s, j, p) {
      if j + 2 <= |amount| {
        assert !MatchesAt(amount, j, p);
        assert s[j] == amount[j] && s[j + 1] == amount[j + 1];
      } else {
        assert s[j] == amount[j];
        assert !ClassHas(p[0], s[j]);
      }
    }
  }

  /** Rules 5-6: `El` reads as `(El, "1.0")` and `El:amount` as `(El, amount)`. */
  lemma ElementRoundTrip(element: string, amount: string)
    requires ':' !in element
    ensures ParseElement(element) == (element, "1.0")
    ensures ParseElement(element + ":" + amount) == (element, amount)
  {
    var p := Literal(":");
    LiteralMatchesAt(":", 0, ":");
    NoMatchWithoutMarker(element, p, 0, ':');
    FirstMatchAtSeparator(element, ":", amount, p, 0);
    var c := element + ":" + amount;
    assert c[..|element|] == element;
    assert c[|element| + 1..] == amount;
  }

  /** Line 59: an element written twice in one component keeps the amount of its last occurrence. */
  lemma ElementLastWins(pairs: seq<string>, i: nat)
    requires i < |pairs|
    requires forall j :: i < j < |pairs| ==> ParseElement(pairs[j]).0 != ParseElement(pairs[i]).0
    ensures ParseElement(pairs[i]).0 in Assign(ElementPairs(pairs))
    ensures Assign(ElementPairs(pairs))[ParseElement(pairs[i]).0] == ParseElement(pairs[i]).1
  {
    AssignLastWins(ElementPairs(pairs), i);
  }

  // ---------------------------------------------------------------------------
  // make_material and make_materials
  // ---------------------------------------------------------------------------

  /** `make_material((material_formula, material_string, composition_string))`. */
  function MakeMaterial(formula: string, display: string, compositionString: string): (r: Result<Material, PyError>)
    ensures r.Ok? <==> Parse(compositionString).Ok?
    ensures r.Err? ==> r.error == Parse(compositionString).error
    ensures r.Ok? ==>
      && r.value.materialFormula == formula && r.value.materialString == display
      && r.value.composition == Parse(compositionString).value.composition
      && r.value.elementsVars == Parse(compositionString).value.elementsVars
      && r.value.additives == Parse(compositionString).value.additives
  {
    var parsed :- Parse(compositionString);
    Ok(Material(formula, display, parsed.composition, parsed.elementsVars, parsed.additives))
  }

  /** `make_materials(data)`: the materials in order, or the error of the first bad row. */
  function MakeMaterials(data: seq<(string, string, string)>): (r: Result<seq<Material>, PyError>)
    ensures r.Ok? ==> |r.value| == |data|
  {
    Collect(MakeRow, data)
  }

  function MakeRow(row: (string, string, string)): Result<Material, PyError> {
    MakeMaterial(row.0, row.1, row.2)
  }

  // ---------------------------------------------------------------------------
  // _parse_equation
  // ---------------------------------------------------------------------------

  /** The fourth element of the tuple: the list `parts[2:]`, or the empty `set()` when there is none. */
  datatype Additives = NoAdditives | AdditiveList(items: seq<string>)

  /** The tuple `(left, right, substitutions, additives)` that `_parse_equation` returns. */
  datatype Equation = Equation(left: set<string>, right: set<string>, substitutions: set<string>, additives: Additives)

  /** `set(xs)` */
  function SetOf(xs: seq<string>): (r: set<string>)
    ensures forall x :: x in r <==> x in xs
  {
    set x | x in xs
  }

  /** The regular expression `\s\+\s` of lines 94-95. */
  const PlusPattern: Pattern := [AnySpace, Exactly('+'), AnySpace]

  /** `_parse_equation(eq)`, or the `ValueError` of line 93. */
  function ParseEquation(eq: string): Result<Equation, PyError> {
    var parts := SplitTrimmed(eq, ';');
    var sides :- Unpack2(Split(parts[0], Literal(" == ")));
    var substitutions := if |parts| > 1 then SetOf(SplitTrimmed(parts[1], ',')) else {};
    var additives := if |parts| > 2 then AdditiveList(parts[2..]) else NoAdditives;
    Ok(Equation(SetOf(Split(sides.0, PlusPattern)), SetOf(Split(sides.1, PlusPattern)), substitutions, additives))
  }

  /** A reaction rendered as `l1 + l2 + ... == r1 + r2 + ...`. */
  function RenderEquation(left: seq<string>, right: seq<string>): string {
    Join(left, " + ") + " == " + Join(right, " + ")
  }

  /**
    Terms without `+`, `=` or `;` read back as the sets of terms on each side, with no
    substitutions and no additives.
   */
  lemma ParseRendered(left: seq<string>, right: seq<string>)
    requires |left| >= 1 && |right| >= 1
    requires forall i :: 0 <= i < |left| ==> '+' !in left[i] && '=' !in left[i] && ';' !in left[i]
    requires forall i :: 0 <= i < |right| ==> '+' !in right[i] && '=' !in right[i] && ';' !in right[i]
    ensures ParseEquation(RenderEquation(left, right)) == Ok(Equation(SetOf(left), SetOf(right), {}, NoAdditives))
  {
    var jl, jr := Join(left, " + "), Join(right, " + ");
    JoinAvoids(left, " + ", ';');
    JoinAvoids(right, " + ", ';');
    var eq := RenderEquation(left, right);
    assert ';' !in eq;
    SplitSides(left, right);
    ParseEquationTwoSides(eq, jl, jr);
    SplitTerms(left);
    SplitTerms(right);
  }

  /** An equation without `;` that `' == '` cuts in two is read side by side. */
  lemma ParseEquationTwoSides(eq: string, l: string, r: string)
    requires ';' !in eq && Split(eq, Literal(" == ")) == [l, r]
    ensures ParseEquation(eq) == Ok(Equation(SetOf(Split(l, PlusPattern)), SetOf(Split(r, PlusPattern)), {}, NoAdditives))
  {
    assert SplitTrimmed(eq, ';') == [eq];
  }

  /** `' == '` splits a rendered reaction into its two joined sides. */
  lemma SplitSides(left: seq<string>, right: seq<string>)
    requires forall i :: 0 <= i < |left| ==> '=' !in left[i]
    requires forall i :: 0 <= i < |right| ==> '=' !in right[i]
    ensures Split(RenderEquation(left, right), Literal(" == ")) == [Join(left, " + "), Join(right, " + ")]
  {
    var jl, jr := Join(left, " + "), Join(right, " + ");
    JoinAvoids(left, " + ", '=');
    JoinAvoids(right, " + ", '=');
    LiteralMatchesAt(" == ", 0, " == ");
    SplitJoinMarked([jl, jr], " == ", Literal(" == "), 1);
    assert Join([jl, jr], " == ") == RenderEquation(left, right);
  }

  /** `\s\+\s` splits terms joined by `' + '` back into the terms. */
  lemma SplitTerms(terms: seq<string>)
    requires |terms| >= 1
    requires forall i :: 0 <= i < |terms| ==> '+' !in terms[i]
    ensures Split(Join(terms, " + "), PlusPattern) == terms
  {
    assert MatchesAt(" + ", 0, PlusPattern) by {
      assert IsWhitespace(' ');
    }
    SplitJoinMarked(terms, " + ", PlusPattern, 1);
  }

  /** Line 94-95 turn each side into a set: reordering or repeating terms does not change the parse. */
  lemma RenderedTermOrder(left: seq<string>, right: seq<string>, left2: seq<string>, right2: seq<string>)
    requires |left| >= 1 && |right| >= 1 && |left2| >= 1 && |right2| >= 1
    requires forall x :: x in left ==> '+' !in x && '=' !in x && ';' !in x
    requires forall x :: x in right ==> '+' !in x && '=' !in x && ';' !in x
    requires SetOf(left) == SetOf(left2) && SetOf(right) == SetOf(right2)
    ensures ParseEquation(RenderEquation(left, right)) == ParseEquation(RenderEquation(left2, right2))
  {
    assert forall i :: 0 <= i < |left2| ==> left2[i] in SetOf(left);
    assert forall i :: 0 <= i < |right2| ==> right2[i] in SetOf(right);
    ParseRendered(left, right);
    ParseRendered(left2, right2);
  }

  /**
    Lines 97-105: with no `;` there are no substitutions and the additives are `set()`;
    they are a list exactly when there are two or more `;`: the trimmed parts from the
    third on, in order, one entry per extra part.
   */
  lemma ParseEquationSections(eq: string)
    requires ParseEquation(eq).Ok?
    ensures ';' !in eq ==> ParseEquation(eq).value.substitutions == {} && ParseEquation(eq).value.additives == NoAdditives
    ensures ParseEquation(eq).value.additives.AdditiveList? <==> multiset(eq)[';'] >= 2
    ensures ParseEquation(eq).value.additives.AdditiveList? ==>
      |ParseEquation(eq).value.additives.items| == multiset(eq)[';'] - 1
    ensures ParseEquation(eq).value.additives.AdditiveList? ==>
      ParseEquation(eq).value.additives.items == SplitTrimmed(eq, ';')[2..]
  {
    SplitCount(eq, ';');
  }

  // ---------------------------------------------------------------------------
  // assertReactionsEqual: Python's ordering of the parsed tuples
  // ---------------------------------------------------------------------------

  /** `a < b` on Python strings: lexicographic by code point. */
  predicate StrLess(a: string, b: string)
    decreases |a|
  {
    if a == [] then b != []
    else if b == [] then false
    else if a[0] != b[0] then a[0] < b[0]
    else StrLess(a[1..], b[1..])
  }

  /** `a < b` on Python lists of strings: the first differing item decides, else the shorter list. */
  predicate ListLess(a: seq<string>, b: seq<string>)
    decreases |a|
  {
    if a == [] then b != []
    else if b == [] then false
    else if a[0] != b[0] then StrLess(a[0], b[0])
    else ListLess(a[1..], b[1..])
  }

  /** `a < b` on the fourth tuple element: `set() < set()` is false, a set against a list raises. */
  function AdditivesLess(a: Additives, b: Additives): (r: Result<bool, PyError>)
    ensures r.Err? <==> a.NoAdditives? != b.NoAdditives?
  {
    match (a, b)
    case (NoAdditives, NoAdditives) => Ok(false)
    case (AdditiveList(x), AdditiveList(y)) => Ok(ListLess(x, y))
    case _ => Err(TypeError)
  }

  /**
    `a < b` on the tuples: the first element that differs decides, compared with its
    own `<`, which for sets is the proper-subset test.
   */
  function EquationLess(a: Equation, b: Equation): Result<bool, PyError> {
    if a.left != b.left then Ok(a.left < b.left)
    else if a.right != b.right then Ok(a.right < b.right)
    else if a.substitutions != b.substitutions then Ok(a.substitutions < b.substitutions)
    else if a.additives != b.additives then AdditivesLess(a.additives, b.additives)
    else Ok(false)
  }

  /** Inserting `x` after the last element it is not smaller than, scanning from the right. */
  function Insert(x: Equation, sorted: seq<Equation>): (r: Result<seq<Equation>, PyError>)
    ensures r.Ok? ==> multiset(r.value) == multiset(sorted) + multiset{x}
  {
    if sorted == [] then Ok([x])
    else
      var n := |sorted| - 1;
      assert sorted == sorted[..n] + [sorted[n]];
      var before :- EquationLess(x, sorted[n]);
      if before then
        var r :- Insert(x, sorted[..n]);
        Ok(r + [sorted[n]])
      else Ok(sorted + [x])
  }

  /** `sorted(xs)`: a stable insertion sort using the tuples' `<`; a comparison that raises aborts it. */
  function PySorted(xs: seq<Equation>): (r: Result<seq<Equation>, PyError>)
    ensures r.Ok? ==> multiset(r.value) == multiset(xs)
  {
    if xs == [] then Ok([])
    else
      var n := |xs| - 1;
      assert xs == xs[..n] + [xs[n]];
      var sorted :- PySorted(xs[..n]);
      Insert(xs[n], sorted)
  }

  /**
    `assertReactionsEqual` as written (lines 109-113), on the rendered strings `x[3]` of the
    reactions: parse and sort each side, then compare the sorted lists.
   */
  function ReactionsEqualAsWritten(rendered: seq<string>, expected: seq<string>): Result<bool, PyError> {
    var parsed :- Collect(ParseEquation, rendered);
    var sortedParsed :- PySorted(parsed);
    var parsedExpected :- Collect(ParseEquation, expected);
    var sortedExpected :- PySorted(parsedExpected);
    Ok(sortedParsed == sortedExpected)
  }

  /** The comparison the helper is meant to make: the same parsed reactions, each as often, in any order. */
  function ReactionsEqual(rendered: seq<string>, expected: seq<string>): Result<bool, PyError> {
    var parsed :- Collect(ParseEquation, rendered);
    var parsedExpected :- Collect(ParseEquation, expected);
    Ok(multiset(parsed) == multiset(parsedExpected))
  }

  /** The intended comparison ignores the order in which either side lists its reactions. */
  lemma ReactionsEqualOrderFree(rendered: seq<string>, rendered2: seq<string>, expected: seq<string>, expected2: seq<string>)
    requires multiset(rendered) == multiset(rendered2) && multiset(expected) == multiset(expected2)
    requires Collect(ParseEquation, rendered).Ok? && Collect(ParseEquation, expected).Ok?
    ensures ReactionsEqual(rendered2, expected2) == ReactionsEqual(rendered, expected)
  {
    CollectPermutation(ParseEquation, rendered, rendered2);
    CollectPermutation(ParseEquation, expected, expected2);
  }

  /** Listing the expected reactions in any order of the rendered ones passes the intended comparison. */
  lemma ReactionsEqualPermutation(rendered: seq<string>, expected: seq<string>)
    requires multiset(rendered) == multiset(expected) && Collect(ParseEquation, rendered).Ok?
    ensures ReactionsEqual(rendered, expected) == Ok(true)
  {
    CollectPermutation(ParseEquation, rendered, expected);
  }

  /** Whenever the helper as written passes, the intended comparison passes too (sorting only permutes). */
  lemma AsWrittenPassImpliesEqual(rendered: seq<string>, expected: seq<string>)
    requires ReactionsEqualAsWritten(rendered, expected) == Ok(true)
    ensures ReactionsEqual(rendered, expected) == Ok(true)
  {
    var parsed := Collect(ParseEquation, rendered).value;
    var parsedExpected := Collect(ParseEquation, expected).value;
    assert multiset(PySorted(parsed).value) == multiset(parsed);
    assert multiset(PySorted(parsedExpected).value) == multiset(parsedExpected);
  }

  lemma CollectTwo<A, B, E>(f: A -> Result<B, E>, x: A, y: A)
    requires f(x).Ok? && f(y).Ok?
    ensures Collect(f, [x, y]) == Ok([f(x).value, f(y).value])
  {
    assert [x][..0] == [];
    assert Collect(f, []) == Ok([]);
    assert Collect(f, [x]) == Ok([] + [f(x).value]);
    assert [] + [f(x).value] == [f(x).value];
    var xy := [x, y];
    assert xy[..1] == [x];
    assert Collect(f, xy) == Ok([f(x).value] + [f(y).value]);
    assert [f(x).value] + [f(y).value] == [f(x).value, f(y).value];
  }

  /** Sorting two tuples keeps them in place when the second is not smaller than the first. */
  lemma PySortedTwo(x: Equation, y: Equation)
    requires EquationLess(y, x) == Ok(false)
    ensures PySorted([x, y]) == Ok([x, y])
  {
    assert [x][..0] == [];
    assert PySorted([]) == Ok([]);
    assert Insert(x, []) == Ok([x]);
    assert PySorted([x]) == Ok([x]);
    var xy := [x, y];
    assert xy[..1] == [x];
    assert Insert(y, [x]) == Ok([x] + [y]);
    assert [x] + [y] == [x, y];
  }

  /** The two reactions of the counterexample below parse to tuples whose left sides are `{"a"}` and `{"c"}`. */
  lemma ExampleReactions()
    ensures ParseEquation("a == b") == Ok(Equation({"a"}, {"b"}, {}, NoAdditives))
    ensures ParseEquation("c == b") == Ok(Equation({"c"}, {"b"}, {}, NoAdditives))
  {
    assert RenderEquation(["a"], ["b"]) == "a == b";
    assert RenderEquation(["c"], ["b"]) == "c == b";
    ParseRendered(["a"], ["b"]);
    ParseRendered(["c"], ["b"]);
    assert SetOf(["a"]) == {"a"} && SetOf(["b"]) == {"b"} && SetOf(["c"]) == {"c"};
  }

  /**
    Two reactions whose left sides are incomparable sets: sorting leaves each list as
    given, so listing them in the other order fails the helper as written although the
    intended comparison holds.
   */
  lemma AsWrittenIsOrderSensitive()
    ensures ReactionsEqualAsWritten(["a == b", "c == b"], ["c == b", "a == b"]) == Ok(false)
    ensures ReactionsEqual(["a == b", "c == b"], ["c == b", "a == b"]) == Ok(true)
  {
    ExampleReactions();
    IncomparableExample();
    SwappedIncomparable("a == b", "c == b",
      Equation({"a"}, {"b"}, {}, NoAdditives), Equation({"c"}, {"b"}, {}, NoAdditives));
  }

  /**
    Two reactions that parse to distinct tuples, neither smaller than the other: the helper
    as written rejects the swapped listing, the intended comparison accepts it.
   */
  lemma SwappedIncomparable(r1: string, r2: string, e1: Equation, e2: Equation)
    requires ParseEquation(r1) == Ok(e1) && ParseEquation(r2) == Ok(e2) && e1 != e2
    requires EquationLess(e1, e2) == Ok(false) && EquationLess(e2, e1) == Ok(false)
    ensures ReactionsEqualAsWritten([r1, r2], [r2, r1]) == Ok(false)
    ensures ReactionsEqual([r1, r2], [r2, r1]) == Ok(true)
  {
    SwappedAsWritten(r1, r2, e1, e2);
    SwappedIntended(r1, r2, e1, e2);
  }

  lemma SwappedAsWritten(r1: string, r2: string, e1: Equation, e2: Equation)
    requires ParseEquation(r1) == Ok(e1) && ParseEquation(r2) == Ok(e2) && e1 != e2
    requires EquationLess(e1, e2) == Ok(false) && EquationLess(e2, e1) == Ok(false)
    ensures ReactionsEqualAsWritten([r1, r2], [r2, r1]) == Ok(false)
  {
    CollectTwo(ParseEquation, r1, r2);
    CollectTwo(ParseEquation, r2, r1);
    SortedPairsDiffer(e1, e2);
  }

  lemma SwappedIntended(r1: string, r2: string, e1: Equation, e2: Equation)
    requires ParseEquation(r1) == Ok(e1) && ParseEquation(r2) == Ok(e2)
    ensures ReactionsEqual([r1, r2], [r2, r1]) == Ok(true)
  {
    CollectTwo(ParseEquation, r1, r2);
    CollectTwo(ParseEquation, r2, r1);
    assert multiset([e1, e2]) == multiset([e2, e1]);
  }

  lemma SortedPairsDiffer(e1: Equation, e2: Equation)
    requires e1 != e2 && EquationLess(e1, e2) == Ok(false) && EquationLess(e2, e1) == Ok(false)
    ensures PySorted([e1, e2]) == Ok([e1, e2]) && PySorted([e2, e1]) == Ok([e2, e1])
    ensures [e1, e2] != [e2, e1]
  {
    PySortedTwo(e1, e2);
    PySortedTwo(e2, e1);
    assert [e1, e2][0] != [e2, e1][0];
  }

  /** `{"a"}` and `{"c"}` are different sets, neither a proper subset of the other. */
  lemma IncomparableExample()
    ensures EquationLess(Equation({"c"}, {"b"}, {}, NoAdditives), Equation({"a"}, {"b"}, {}, NoAdditives)) == Ok(false)
    ensures EquationLess(Equation({"a"}, {"b"}, {}, NoAdditives), Equation({"c"}, {"b"}, {}, NoAdditives)) == Ok(false)
    ensures Equation({"a"}, {"b"}, {}, NoAdditives) != Equation({"c"}, {"b"}, {}, NoAdditives)
  {
    assert "a" != "c" by { assert "a"[0] != "c"[0]; }
    assert "c" !in {"a"};
    assert "a" !in {"c"};
  }
}
