/**
 * Exactly which printed values and forests src/configor.cpp reads back: the
 * converse of the round trip.
 */
module ConfigorReadback {
  import opened ConfigorModel
  import opened Options

  // ----- the loops only append -----

  lemma {:induction false} SkipCommasGrows(ts: seq<string>, i: nat, values: seq<string>, fuel: nat)
    requires i < |ts|
    ensures var r := SkipCommas(ts, i, values, fuel);
            r.Done? ==> values <= r.value && (ts[i] == "," ==> values + [""] <= r.value)
    decreases fuel
  {
    if ts[i] == "," && fuel > 0 {
      SkipCommasGrows(ts, Next(ts, i), values + [""], fuel - 1);
    }
  }

  lemma {:induction false} ParseValuesGrows(ts: seq<string>, i: nat, values: seq<string>, fuel: nat)
    requires i < |ts|
    ensures var r := ParseValues(ts, i, values, fuel);
            r.Done? ==> if ts[i] == "]" then r.value == values else values + [ts[i]] <= r.value
    decreases fuel
  {
    if ts[i] != "]" && fuel > 0 {
      var j := Next(ts, i);
      var k := if ts[j] == "," then Next(ts, j) else j;
      SkipCommasGrows(ts, k, values + [ts[i]], fuel - 1);
      var s := SkipCommas(ts, k, values + [ts[i]], fuel - 1);
      if s.Done? {
        ParseValuesGrows(ts, s.index, s.value, fuel - 1);
        PrefixTrans(values + [ts[i]], s.value, ParseValues(ts, s.index, s.value, fuel - 1));
      }
    }
  }

  lemma PrefixTrans(a: seq<string>, b: seq<string>, r: Parsed<seq<string>>)
    requires a <= b
    ensures r.Done? && b <= r.value ==> a <= r.value
    ensures forall x :: r.Done? && b + [x] <= r.value ==> a <= r.value
  {
    forall x | r.Done? && b + [x] <= r.value ensures a <= r.value {
      assert b <= b + [x];
    }
  }

  /** The loop entered behind a separator, at a comma or a closing bracket. */
  lemma AfterSeparatorGrows(ts: seq<string>, i: nat, values: seq<string>, skipFuel: nat, fuel: nat)
    requires i < |ts|
    ensures var r := AfterSeparator(ts, i, values, skipFuel, fuel);
            r.Done? ==> (ts[i] == "]" ==> r.value == values) && (ts[i] == "," ==> values + [""] <= r.value)
  {
    SkipCommasGrows(ts, i, values, skipFuel);
    var s := SkipCommas(ts, i, values, skipFuel);
    if s.Done? {
      ParseValuesGrows(ts, s.index, s.value, fuel);
      if ts[i] == "," {
        PrefixTrans(values + [""], s.value, ParseValues(ts, s.index, s.value, fuel));
      }
    }
  }

  // ----- lists -----

  lemma ReadableRestCons(vs: seq<string>)
    requires |vs| > 1
    ensures IsReadableRest(vs) <==> vs[0] != "," && vs[0] != "]" && IsReadableRest(vs[1..])
  {
    var rest := vs[1..];
    assert forall k :: 1 <= k < |vs| ==> vs[k] == rest[k - 1];
  }

  lemma ReadableListCons(vs: seq<string>)
    requires |vs| > 1
    ensures IsReadableList(vs) <==> vs[0] != "" && vs[0] != "]" && IsReadableRest(vs[1..])
  {
    var rest := vs[1..];
    assert forall v :: v in vs <==> v == vs[0] || v in rest;
    assert rest[|rest| - 1] == vs[|vs| - 1] && vs[0] in vs;
    if IsReadableList(vs) {
      forall k | 0 <= k < |rest| ensures rest[k] != "," && rest[k] != "]" {
        assert rest[k] == vs[k + 1] && rest[k] in vs;
      }
    } else if IsReadableRest(rest) && vs[0] != "]" {
      forall k | 1 <= k < |vs| ensures vs[k] != "," {
        assert vs[k] == rest[k - 1];
      }
    }
  }

  /** Text that is no readable tail reads back as something else, or not at all. */
  lemma {:induction false} BadRest(ts: seq<string>, i: nat, values: seq<string>, vs: seq<string>,
          skipFuel: nat, fuel: nat)
    requires vs != [] && !IsReadableRest(vs) && At(ts, i, ListTokens(vs) + ["]"])
    ensures i < |ts|
    ensures var r := AfterSeparator(ts, i, values, skipFuel, fuel); r.Done? ==> r.value != values + vs
    decreases |vs|
  {
    hide At, ParseValues, IsReadableRest;
    var v, rest := vs[0], vs[1..];
    AtHead(ts, i, ListTokens(vs) + ["]"]);
    if v == "," || v == "]" || |vs| == 1 {
      LastIsReadable(vs);
      DelimiterInFront(ts, i, values, vs, skipFuel, fuel);
    } else {
      ReadableRestCons(vs);
      ListTokensCons(vs);
      BadRestStep(ts, i, values, vs, skipFuel, fuel);
    }
  }

  lemma DelimiterInFront(ts: seq<string>, i: nat, values: seq<string>, vs: seq<string>, skipFuel: nat, fuel: nat)
    requires vs != [] && i < |ts| && (if vs[0] == "," then ts[i] == "," else ts[i] == "]")
    ensures var r := AfterSeparator(ts, i, values, skipFuel, fuel); r.Done? ==> r.value != values + vs
  {
    AfterSeparatorGrows(ts, i, values, skipFuel, fuel);
    hide AfterSeparator;
    var r := AfterSeparator(ts, i, values, skipFuel, fuel);
    if r.Done? {
      if vs[0] == "," {
        CommaIsNotKept(values, vs, r);
      } else {
        assert |values + vs| > |r.value|;
      }
    }
  }

  lemma CommaIsNotKept(values: seq<string>, vs: seq<string>, r: Parsed<seq<string>>)
    requires r.Done? && vs != [] && vs[0] == "," && values + [""] <= r.value
    ensures r.value != values + vs
  {
    assert r.value[|values|] == (values + [""])[|values|] == "";
    assert (values + vs)[|values|] == ",";
  }

  lemma LastIsReadable(vs: seq<string>)
    requires vs != []
    ensures |vs| == 1 && vs[0] != "," && vs[0] != "]" ==> (IsReadableRest(vs) <==> vs[0] != "")
  {}

  lemma {:induction false} BadRestStep(ts: seq<string>, i: nat, values: seq<string>, vs: seq<string>,
          skipFuel: nat, fuel: nat)
    requires |vs| > 1 && vs[0] != "," && vs[0] != "]" && !IsReadableRest(vs[1..])
    requires At(ts, i, ValueToken(vs[0]) + ([","] + (ListTokens(vs[1..]) + ["]"]))) && i < |ts|
    ensures var r := AfterSeparator(ts, i, values, skipFuel, fuel); r.Done? ==> r.value != values + vs
    decreases |vs|, 0
  {
    hide At, ParseValues, IsReadableRest, ListTokens;
    var v, rest := vs[0], vs[1..];
    var tail := ListTokens(rest) + ["]"];
    assert values + [v] + rest == values + vs;
    AtHead(ts, i, ValueToken(v) + ([","] + tail));
    if v == "" {
      assert ValueToken(v) + ([","] + tail) == [","] + tail;
      if skipFuel > 0 {
        SkipOneComma(ts, i, values, tail, skipFuel, fuel);
        hide SkipCommas, AfterSeparator;
        BadRest(ts, i + 1, values + [""], rest, skipFuel - 1, fuel);
      }
    } else {
      assert ts[i] == v;
      assert AfterSeparator(ts, i, values, skipFuel, fuel) == ParseValues(ts, i, values, fuel);
      hide SkipCommas, AfterSeparator;
      if fuel == 0 {
        NoFuelNoValue(ts, i, values);
      } else {
        ParseNextValue(ts, i, values, v, tail, fuel);
        BadRest(ts, i + 2, values + [v], rest, fuel - 1, fuel - 1);
      }
    }
  }

  lemma NoFuelNoValue(ts: seq<string>, i: nat, values: seq<string>)
    requires i < |ts| && ts[i] != "]"
    ensures ParseValues(ts, i, values, 0).OutOfFuel?
  {}

  lemma OneIsReadable(vs: seq<string>)
    requires vs != [] && !IsReadableList(vs) && vs[0] != "" && vs[0] != "]"
    ensures |vs| > 1
  {}

  lemma BadList(ts: seq<string>, i: nat, vs: seq<string>, fuel: nat)
    requires vs != [] && !IsReadableList(vs) && At(ts, i, ListTokens(vs) + ["]"])
    ensures i < |ts| && var r := ParseValues(ts, i, [], fuel); r.Done? ==> r.value != vs
  {
    hide At, ParseValues, AfterSeparator, IsReadableRest;
    var v, rest := vs[0], vs[1..];
    AtHead(ts, i, ListTokens(vs) + ["]"]);
    ParseValuesGrows(ts, i, [], fuel);
    if v != "" && v != "]" {
      OneIsReadable(vs);
      ReadableListCons(vs);
      ListTokensCons(vs);
      hide ListTokens, IsReadableList;
      var tail := ListTokens(rest) + ["]"];
      AtHead(ts, i, [v] + ([","] + tail));
      if fuel == 0 {
        NoFuelNoValue(ts, i, []);
      } else {
        ParseNextValue(ts, i, [], v, tail, fuel);
        BadRest(ts, i + 2, [] + [v], rest, fuel - 1, fuel - 1);
        assert [] + [v] + rest == vs;
      }
    }
  }

  /** A printed list reads back as itself exactly if it is a readable one. */
  lemma ListReadsBackIff(ts: seq<string>, i: nat, vs: seq<string>, fuel: nat)
    requires vs != [] && At(ts, i, ListTokens(vs) + ["]"]) && fuel >= |ListTokens(vs)|
    ensures i < |ts| && var r := ParseValues(ts, i, [], fuel); (r.Done? && r.value == vs <==> IsReadableList(vs))
  {
    hide ParseValues, At, ListTokens, IsReadableList;
    if IsReadableList(vs) {
      ParseOnList(ts, i, vs, fuel);
    } else {
      BadList(ts, i, vs, fuel);
    }
  }

  /** Setting only the second value of a new element leaves an empty first one, which reads back as a comma. */
  lemma EmptyFirstValueIsLost(fuel: nat)
    requires fuel >= 2
    ensures ListTokens(["", "x"]) == [",", "x"]
    ensures ParseValues([",", "x", "]"], 0, [], fuel) == Done([",", "x"], 2)
  {
    var ts := [",", "x", "]"];
    assert ["", "x"][1..] == ["x"];
    var one, two := [","], [",", "x"];
    assert [] + [ts[0]] == one && one + [ts[1]] == two;
    assert ParseValues(ts, 2, two, fuel - 2) == Done(two, 2);
    assert SkipCommas(ts, 2, two, fuel - 2) == Done(two, 2);
    assert ParseValues(ts, 1, one, fuel - 1) == Done(two, 2);
    assert SkipCommas(ts, 1, one, fuel - 1) == Done(one, 1);
  }

  // ----- what the parser can push -----

  /** An element whose only value is empty is never pushed when no token is empty. */
  predicate IsPushable(e: Element) {
    e.values != [""]
  }

  lemma ArrayIsPushable(ts: seq<string>, i: nat, fuel: nat)
    requires i < |ts| && "" !in ts
    ensures var r := ParseValues(ts, i, [], fuel); r.Done? ==> r.value != [""]
  {
    hide ParseValues;
    ParseValuesGrows(ts, i, [], fuel);
    var r := ParseValues(ts, i, [], fuel);
    assert ts[i] in ts;
    if r.Done? && ts[i] != "]" {
      assert r.value[0] == ([] + [ts[i]])[0];
    }
  }

  lemma VarIsPushable(ts: seq<string>, i: nat, fuel: nat)
    requires i < |ts| && "" !in ts
    ensures var r := ParseVar(ts, i, fuel); r.Done? && r.value.Some? ==> IsPushable(r.value.value)
  {
    hide ParseValues, ParseVars;
    var i2 := Next(ts, Next(ts, i));
    ArrayIsPushable(ts, Next(ts, i2), fuel);
    assert ts[i2] in ts;
  }

  /** more extends done by pushable elements. */
  ghost predicate Extends(done: seq<Element>, more: seq<Element>) {
    done <= more && forall k :: |done| <= k < |more| ==> IsPushable(more[k])
  }

  lemma PushedExtends(done: seq<Element>, e: Option<Element>, more: seq<Element>)
    requires e.Some? ==> IsPushable(e.value)
    requires Extends(Pushed(done, e), more)
    ensures Extends(done, more) && (e.Some? ==> |more| > |done| && more[|done|] == e.value)
  {
    if e.Some? {
      var d := done + [e.value];
      assert d[|done|] == e.value && done == d[..|done|];
      assert more[..|d|] == d && more[..|done|] == done;
    }
  }

  lemma {:induction false} VarsExtend(ts: seq<string>, i: nat, done: seq<Element>, fuel: nat)
    requires i < |ts| && "" !in ts
    ensures var r := ParseVars(ts, i, done, fuel); r.Done? ==> Extends(done, r.value)
    decreases fuel
  {
    hide ParseVar, Extends, IsPushable, Pushed;
    if ts[i] == "}" {
      ExtendsItself(done);
    } else if fuel > 0 {
      VarIsPushable(ts, i, fuel - 1);
      var s := ParseVar(ts, i, fuel - 1);
      if s.Done? {
        VarsExtend(ts, s.index, Pushed(done, s.value), fuel - 1);
        var r := ParseVars(ts, s.index, Pushed(done, s.value), fuel - 1);
        if r.Done? { PushedExtends(done, s.value, r.value); }
      }
    }
  }

  lemma ExtendsItself(done: seq<Element>)
    ensures Extends(done, done)
  {}

  lemma {:induction false} AllExtend(ts: seq<string>, i: nat, done: seq<Element>, fuel: nat)
    requires i < |ts| && "" !in ts
    ensures var r := ParseAll(ts, i, done, fuel); r.Done? ==> Extends(done, r.value)
    decreases fuel
  {
    hide ParseVar, Extends, IsPushable, Pushed;
    if i == |ts| - 1 {
      ExtendsItself(done);
    } else if fuel > 0 {
      VarIsPushable(ts, i, fuel - 1);
      var s := ParseVar(ts, i, fuel - 1);
      if s.Done? {
        AllExtend(ts, s.index, Pushed(done, s.value), fuel - 1);
        var r := ParseAll(ts, s.index, Pushed(done, s.value), fuel - 1);
        if r.Done? { PushedExtends(done, s.value, r.value); }
      }
    }
  }

  // ----- an element that is not readable -----

  /** The parse of an element came out as something else. */
  ghost predicate Misread(r: Parsed<Option<Element>>, e: Element) {
    r.Done? ==> if r.value.None? then !IsPushable(e) else r.value.value != e
  }

  lemma BadSingle(ts: seq<string>, i: nat, e: Element, fuel: nat)
    requires |e.values| == 1 && e.children == [] && !IsReadable(e)
    requires At(ts, i, [e.name, "="] + (ValueToken(e.values[0]) + [";"])) && "" !in ts
    ensures i < |ts| && Misread(ParseVar(ts, i, fuel), e)
  {
    hide At, ParseValues, ParseVars;
    var v := e.values[0];
    AtSplit(ts, i, [e.name, "="], ValueToken(v) + [";"]);
    AtHead(ts, i, [e.name, "="]);
    assert [e.name, "="][1..] == ["="];
    AtHead(ts, i + 1, ["="]);
    AtHead(ts, i + 2, ValueToken(v) + [";"]);
    assert e.values == [v];
    if v == "" {
      VarIsPushable(ts, i, fuel);
      assert !IsPushable(e);
    } else if v == "[" {
      assert (ValueToken(v) + [";"])[1..] == [";"];
      AtHead(ts, i + 3, [";"]);
      ParseValuesGrows(ts, i + 3, [], fuel);
      FirstDiffers(ParseValues(ts, i + 3, [], fuel), ";", v);
    }
  }

  lemma FirstDiffers(r: Parsed<seq<string>>, first: string, v: string)
    requires first != v && (r.Done? ==> [] + [first] <= r.value)
    ensures r.Done? ==> r.value != [v]
  {
    if r.Done? {
      assert r.value[0] == ([] + [first])[0];
    }
  }

  lemma BadArray(ts: seq<string>, i: nat, e: Element, fuel: nat)
    requires |e.values| > 1 && e.children == [] && !IsReadableList(e.values)
    requires At(ts, i, [e.name, "="] + (["["] + ListTokens(e.values) + ["]"]))
    ensures i < |ts| && Misread(ParseVar(ts, i, fuel), e)
  {
    hide At, ParseValues, ListTokens, IsReadableList, ParseVars;
    var tail := ListTokens(e.values) + ["]"];
    assert ["["] + ListTokens(e.values) + ["]"] == ["["] + tail;
    AtSplit(ts, i, [e.name, "="], ["["] + tail);
    AtHead(ts, i, [e.name, "="]);
    assert [e.name, "="][1..] == ["="];
    AtHead(ts, i + 1, ["="]);
    AtSplit(ts, i + 2, ["["], tail);
    AtHead(ts, i + 2, ["["]);
    AtHead(ts, i + 3, tail);
    BadList(ts, i + 3, e.values, fuel);
  }

  predicate AllReadable(es: seq<Element>) {
    forall e :: e in es ==> IsReadable(e)
  }

  predicate AllPrintable(es: seq<Element>) {
    forall e :: e in es ==> IsPrintable(e) && IsShaped(e)
  }

  lemma {:induction false} BadElement(ts: seq<string>, i: nat, e: Element, fuel: nat)
    requires IsPrintable(e) && IsShaped(e) && !IsReadable(e)
    requires At(ts, i, Tokens(e)) && "" !in ts && fuel >= |Tokens(e)|
    ensures i < |ts| && Misread(ParseVar(ts, i, fuel), e)
    decreases e, 1
  {
    hide At, ParseValues, ListTokens, IsReadableList, ParseVars, Misread, AllTokens;
    if e.children != [] {
      BadObject(ts, i, e, fuel);
    } else if |e.values| == 1 {
      BadSingle(ts, i, e, fuel);
    } else {
      BadArray(ts, i, e, fuel);
    }
  }

  lemma {:induction false} BadObject(ts: seq<string>, i: nat, e: Element, fuel: nat)
    requires e.children != [] && AllPrintable(e.children) && !AllReadable(e.children) && "" !in ts
    requires At(ts, i, [e.name, "="] + (["{"] + AllTokens(e.children) + ["}"])) && fuel > |AllTokens(e.children)|
    ensures i < |ts| && Misread(ParseVar(ts, i, fuel), e)
    decreases e, 0
  {
    hide At, ParseValues, AllTokens, AllPrintable, AllReadable, ParseVars;
    var tail := AllTokens(e.children) + ["}"];
    assert ["{"] + AllTokens(e.children) + ["}"] == ["{"] + tail;
    AtSplit(ts, i, [e.name, "="], ["{"] + tail);
    AtHead(ts, i, [e.name, "="]);
    assert [e.name, "="][1..] == ["="];
    AtHead(ts, i + 1, ["="]);
    AtSplit(ts, i + 2, ["{"], tail);
    AtHead(ts, i + 2, ["{"]);
    BadVars(ts, i + 3, [], e.children, fuel);
    assert [] + e.children == e.children;
  }

  lemma FirstOf(es: seq<Element>)
    requires es != []
    ensures AllReadable(es) <==> IsReadable(es[0]) && AllReadable(es[1..])
    ensures AllPrintable(es) <==> IsPrintable(es[0]) && IsShaped(es[0]) && AllPrintable(es[1..])
  {
    assert forall e :: e in es <==> e == es[0] || e in es[1..];
  }

  lemma ShapedIsKept(e: Element)
    requires IsShaped(e)
    ensures Prune(e) == e && !IsEmptyNode(e)
  {
    PruneKeepsIff(e.children);
  }

  /** The result starts with done and a misread element, so it is not what was printed. */
  lemma MisreadStays(done: seq<Element>, e: Element, rest: seq<Element>, r: Option<Element>, more: seq<Element>)
    requires Misread(Done(r, 0), e) && (r.Some? ==> IsPushable(r.value))
    requires Extends(Pushed(done, r), more)
    ensures more != done + ([e] + rest)
  {
    PushedExtends(done, r, more);
    assert (done + ([e] + rest))[|done|] == e;
  }

  /** The element in front is read as it was, or misread. */
  lemma {:induction false} FrontElement(ts: seq<string>, i: nat, es: seq<Element>, end: seq<string>, fuel: nat)
    requires es != [] && AllPrintable(es) && At(ts, i, AllTokens(es) + end) && (end == [] || end == ["}"])
    requires "" !in ts && fuel >= |AllTokens(es)|
    requires !IsReadable(es[0]) || (AllTokens(es[1..]) + end != [])
    ensures var e, rest := es[0], es[1..];
            && |Tokens(e)| >= 3 && i + |Tokens(e)| <= |ts| && ts[i] != "}"
            && |AllTokens(es)| == |Tokens(e)| + |AllTokens(rest)|
            && At(ts, i + |Tokens(e)|, AllTokens(rest) + end)
            && (if IsReadable(e) then ParseVar(ts, i, fuel) == Done(Some(e), i + |Tokens(e)|)
                else Misread(ParseVar(ts, i, fuel), e))
    decreases es, 0
  {
    hide At, ParseVar, Tokens, Prune, IsReadable, IsPrintable, AllTokens, Misread, IsShaped;
    var e, rest := es[0], es[1..];
    PrintableOf(es);
    ForestSplit(ts, i, es, end);
    ShapedIsKept(e);
    NodeHasTokens(e);
    NameInFront(ts, i, e);
    if IsReadable(e) {
      ParseVarOnTokens(ts, i, e, fuel);
    } else {
      BadElement(ts, i, e, fuel);
    }
  }

  lemma PrintableOf(es: seq<Element>)
    requires es != [] && AllPrintable(es)
    ensures IsPrintable(es[0]) && IsShaped(es[0]) && AllPrintable(es[1..])
    ensures forall c :: c in es ==> IsPrintable(c)
  {
    FirstOf(es);
  }

  lemma NameInFront(ts: seq<string>, i: nat, e: Element)
    requires IsPrintable(e) && !IsEmptyNode(e) && At(ts, i, Tokens(e))
    ensures i + |Tokens(e)| <= |ts| && i < |ts| && ts[i] != "}"
  {
    AtHead(ts, i, Tokens(e));
    CleanNameIsNoDelimiter(e.name, '}');
  }

  lemma {:induction false} BadVars(ts: seq<string>, i: nat, done: seq<Element>, es: seq<Element>, fuel: nat)
    requires es != [] && AllPrintable(es) && !AllReadable(es) && "" !in ts
    requires At(ts, i, AllTokens(es) + ["}"]) && fuel > |AllTokens(es)|
    ensures i < |ts|
    ensures var r := ParseVars(ts, i, done, fuel); r.Done? ==> r.value != done + es
    decreases es, 1
  {
    hide At, ParseVar, Tokens, IsReadable, IsPrintable, AllTokens, Misread, IsShaped, Extends, IsPushable;
    var e, rest := es[0], es[1..];
    FirstOf(es);
    FrontElement(ts, i, es, ["}"], fuel - 1);
    assert done + [e] + rest == done + es && [e] + rest == es;
    hide AllPrintable, AllReadable;
    if IsReadable(e) {
      NoneUnread(rest);
      hide Pushed;
      PushedSome(done, e);
      BadVars(ts, i + |Tokens(e)|, done + [e], rest, fuel - 1);
    } else {
      var s := ParseVar(ts, i, fuel - 1);
      if s.Done? {
        VarIsPushable(ts, i, fuel - 1);
        VarsExtend(ts, s.index, Pushed(done, s.value), fuel - 1);
        var r := ParseVars(ts, s.index, Pushed(done, s.value), fuel - 1);
        if r.Done? {
          AnyIndex(s, e);
          MisreadStays(done, e, rest, s.value, r.value);
        }
      }
    }
  }

  lemma PushedSome(done: seq<Element>, e: Element)
    ensures Pushed(done, Some(e)) == done + [e]
  {}

  lemma NoneUnread(es: seq<Element>)
    ensures !AllReadable(es) ==> es != []
  {}

  lemma AnyIndex(r: Parsed<Option<Element>>, e: Element)
    requires r.Done? && Misread(r, e)
    ensures Misread(Done(r.value, 0), e)
  {}

  lemma {:induction false} BadAll(ts: seq<string>, i: nat, done: seq<Element>, es: seq<Element>, fuel: nat)
    requires es != [] && AllPrintable(es) && !AllReadable(es) && "" !in ts
    requires At(ts, i, AllTokens(es) + []) && i + |AllTokens(es)| == |ts| && fuel > |AllTokens(es)|
    ensures i < |ts|
    ensures var r := ParseAll(ts, i, done, fuel); r.Done? ==> r.value != done + es
    decreases es
  {
    hide At, ParseVar, Tokens, IsReadable, IsPrintable, AllTokens, Misread, IsShaped, Extends, IsPushable;
    var e, rest := es[0], es[1..];
    FirstOf(es);
    if IsReadable(e) { NoneUnread(rest); ForestHasTokens(rest); }
    FrontElement(ts, i, es, [], fuel - 1);
    assert done + [e] + rest == done + es && [e] + rest == es;
    hide AllPrintable, AllReadable;
    if IsReadable(e) {
      hide Pushed;
      PushedSome(done, e);
      BadAll(ts, i + |Tokens(e)|, done + [e], rest, fuel - 1);
    } else {
      var s := ParseVar(ts, i, fuel - 1);
      if s.Done? {
        VarIsPushable(ts, i, fuel - 1);
        AllExtend(ts, s.index, Pushed(done, s.value), fuel - 1);
        var r := ParseAll(ts, s.index, Pushed(done, s.value), fuel - 1);
        if r.Done? {
          AnyIndex(s, e);
          MisreadStays(done, e, rest, s.value, r.value);
        }
      }
    }
  }

  lemma ForestHasTokens(es: seq<Element>)
    requires es != [] && AllPrintable(es)
    ensures AllTokens(es) != []
  {
    hide Tokens;
    PrintableOf(es);
    ShapedIsKept(es[0]);
    NodeHasTokens(es[0]);
  }

  lemma {:induction false} NoEmptyListToken(vs: seq<string>)
    ensures "" !in ListTokens(vs)
  {
    if |vs| > 1 { NoEmptyListToken(vs[1..]); }
  }

  /** Printed forests have no empty token. */
  lemma {:induction false} NoEmptyToken(es: seq<Element>)
    requires AllPrintable(es)
    ensures "" !in AllTokens(es)
    decreases es
  {
    if es != [] {
      var e := es[0];
      PrintableOf(es);
      NoEmptyToken(es[1..]);
      NoEmptyToken(e.children);
      NoEmptyTokenIn(e);
      hide Tokens;
    }
  }

  lemma NoEmptyTokenIn(e: Element)
    requires IsPrintable(e) && "" !in AllTokens(e.children)
    ensures "" !in Tokens(e)
  {
    hide AllTokens, ListTokens;
    assert e.name != "";
    NoEmptyListToken(e.values);
    assert "" !in BodyTokens(e);
  }

  /** Among printable forests, loading what was saved is the identity exactly for the readable ones. */
  lemma RoundTripIsIdentityIff(es: seq<Element>, fuel: nat)
    requires (forall e :: e in es ==> IsPrintable(e) && IsShaped(e)) && fuel > |AllTokens(es)|
    ensures var r := Loaded(WriteAll(es, 0), fuel);
            (r.Done? && r.value == es) <==> forall e :: e in es ==> IsReadable(e)
  {
    if AllReadable(es) {
      RoundTripIsIdentity(es, fuel);
    } else {
      var ts := AllTokens(es);
      NoEmptyToken(es);
      TokensOfPrinted(es);
      ForestHasTokens(es);
      assert ts[0..|ts|] == ts && ts + [] == ts;
      assert At(ts, 0, ts + []);
      hide AllTokens, ParseAll, WriteAll, Tokenized, Preprocessed;
      BadAll(ts, 0, [], es, fuel);
      assert [] + es == es;
    }
  }
}
