/**
 * src/configor.cpp on values: the printer, the preprocessor and tokenizer as
 * character machines, the parser, and the round trip through all of them.
 */
module ConfigorModel {
  import opened Options

  datatype Element = Element(name: string, values: seq<string>, children: seq<Element>)

  // ----- the printer -----

  const TABS: nat := 4

  function Spaces(n: nat): string {
    seq(n, _ => ' ')
  }

  predicate IsNumericChar(c: char) {
    '0' <= c <= '9' || c == '.' || c == '-'
  }

  predicate IsNumeric(v: string) {
    forall i :: 0 <= i < |v| ==> IsNumericChar(v[i])
  }

  function Quoted(v: string): string {
    if IsNumeric(v) then v else "\"" + v + "\""
  }

  function WriteList(values: seq<string>): string {
    if values == [] then ""
    else if |values| == 1 then Quoted(values[0])
    else Quoted(values[0]) + ", " + WriteList(values[1..])
  }

  predicate IsEmptyNode(e: Element) {
    e.values == [] && e.children == []
  }

  function Write(e: Element, tabs: nat): string
    decreases e, 1
  {
    if IsEmptyNode(e) then ""
    else Spaces(tabs) + e.name + " = " + WriteBody(e, tabs) + "\n"
  }

  function WriteBody(e: Element, tabs: nat): string
    decreases e, 0
  {
    if e.children != [] then "{\n" + WriteAll(e.children, tabs + TABS) + Spaces(tabs) + "}"
    else if |e.values| == 1 then Quoted(e.values[0]) + ";"
    else "[" + WriteList(e.values) + "]"
  }

  function WriteAll(es: seq<Element>, tabs: nat): string {
    if es == [] then "" else Write(es[0], tabs) + WriteAll(es[1..], tabs)
  }

  // ----- quote state -----

  datatype Quote = Quote(isString: bool, mask: bool)

  const OUTSIDE := Quote(false, false)
  const INSIDE := Quote(true, false)

  /** testString: the new state, and whether c is a masking backslash. */
  function TestString(q: Quote, c: char): (Quote, bool) {
    var mask := if q.isString && c == '\\' then !q.mask else q.mask;
    if q.isString && c == '\\' && mask then (Quote(true, true), true)
    else
      var toggles := !mask && (c == '"' || c == '\'');
      (Quote(if toggles then !q.isString else q.isString, false), false)
  }

  // ----- preprocess -----

  /** skip: the rest of the line is a comment. */
  datatype PreState = PreState(q: Quote, skip: bool)

  /** One character of the file; a newline is the end of a line, kept only inside a string. */
  function PreStep(s: PreState, c: char): (PreState, string) {
    if c == '\n' then (PreState(s.q, false), if s.q.isString then "\n" else "")
    else if s.skip then (s, "")
    else if !s.q.isString && (c == ' ' || c == '\t') then (s, "")
    else if !s.q.isString && c == '#' then (PreState(s.q, true), "")
    else (PreState(TestString(s.q, c).0, false), [c])
  }

  function PreState'(text: string, s: PreState): PreState {
    if text == "" then s else PreState'(text[1..], PreStep(s, text[0]).0)
  }

  function PreText(text: string, s: PreState): string {
    if text == "" then "" else PreStep(s, text[0]).1 + PreText(text[1..], PreStep(s, text[0]).0)
  }

  // ----- tokenize -----

  predicate IsDelimiter(c: char) {
    c == '=' || c == ';' || c == '[' || c == ']' || c == '{' || c == '}' || c == ','
  }

  datatype TokState = TokState(q: Quote, token: string, tokens: seq<string>)

  /** Cuts the quotes of a quoted token. */
  function Cut(token: string): string {
    if token == "" || token[0] != '"' || token[|token| - 1] != '"' then token
    else if |token| == 1 then ""
    else token[1..|token| - 1]
  }

  function TokenOf(token: string): seq<string> {
    if Cut(token) == "" then [] else [Cut(token)]
  }

  function TokStep(s: TokState, c: char): TokState {
    var (q, masked) := TestString(s.q, c);
    if masked || c == '\n' then s.(q := q)
    else if !q.isString && IsDelimiter(c) then TokState(q, "", s.tokens + TokenOf(s.token) + [[c]])
    else s.(q := q, token := s.token + [c])
  }

  function TokText(text: string, s: TokState): TokState {
    if text == "" then s else TokText(text[1..], TokStep(s, text[0]))
  }

  // ----- both passes at once -----

  datatype ScanState = ScanState(p: PreState, t: TokState)

  function ScanStep(s: ScanState, c: char): ScanState {
    var (p, out) := PreStep(s.p, c);
    ScanState(p, TokText(out, s.t))
  }

  function Scan(text: string, s: ScanState): ScanState {
    if text == "" then s else Scan(text[1..], ScanStep(s, text[0]))
  }

  lemma {:induction false} TokAppend(a: string, b: string, s: TokState)
    ensures TokText(a + b, s) == TokText(b, TokText(a, s))
  {
    if a == "" {
      assert a + b == b;
    } else {
      TokAppend(a[1..], b, TokStep(s, a[0]));
      assert (a + b)[1..] == a[1..] + b;
    }
  }

  lemma {:induction false} ScanAppend(a: string, b: string, s: ScanState)
    ensures Scan(a + b, s) == Scan(b, Scan(a, s))
  {
    if a == "" {
      assert a + b == b;
    } else {
      ScanAppend(a[1..], b, ScanStep(s, a[0]));
      assert (a + b)[1..] == a[1..] + b;
    }
  }

  /** Tokenizing the preprocessed text is one scan of the text. */
  lemma {:induction false} ScanIsTokOfPre(text: string, s: ScanState)
    ensures Scan(text, s) == ScanState(PreState'(text, s.p), TokText(PreText(text, s.p), s.t))
  {
    if text != "" {
      var (p, out) := PreStep(s.p, text[0]);
      ScanIsTokOfPre(text[1..], ScanStep(s, text[0]));
      TokAppend(out, PreText(text[1..], p), s.t);
    }
  }

  // ----- scanning pieces of printed text -----

  /** Between strings, with a token begun and tokens done. */
  function Clean(token: string, tokens: seq<string>): ScanState {
    ScanState(PreState(OUTSIDE, false), TokState(OUTSIDE, token, tokens))
  }

  function InString(token: string, tokens: seq<string>): ScanState {
    ScanState(PreState(INSIDE, false), TokState(INSIDE, token, tokens))
  }

  predicate IsPlainChar(c: char) {
    c != ' ' && c != '\t' && c != '"' && c != '\'' && c != '#' && c != '\n' && !IsDelimiter(c)
  }

  predicate IsPlain(w: string) {
    forall i :: 0 <= i < |w| ==> IsPlainChar(w[i])
  }

  predicate IsQuotable(v: string) {
    forall i :: 0 <= i < |v| ==> v[i] != '"' && v[i] != '\'' && v[i] != '\\' && v[i] != '\n'
  }

  lemma TokOne(c: char, s: TokState)
    ensures TokText([c], s) == TokStep(s, c) && TokText("", s) == s
  {
    assert [c][1..] == "";
  }

  lemma {:induction false} ScanPlain(w: string, token: string, tokens: seq<string>)
    requires IsPlain(w)
    ensures Scan(w, Clean(token, tokens)) == Clean(token + w, tokens)
  {
    if w == "" {
      assert token + w == token;
    } else {
      TokOne(w[0], Clean(token, tokens).t);
      assert ScanStep(Clean(token, tokens), w[0]) == Clean(token + [w[0]], tokens);
      ScanPlain(w[1..], token + [w[0]], tokens);
      assert token + [w[0]] + w[1..] == token + w;
    }
  }

  lemma {:induction false} ScanInString(v: string, token: string, tokens: seq<string>)
    requires IsQuotable(v)
    ensures Scan(v, InString(token, tokens)) == InString(token + v, tokens)
  {
    if v == "" {
      assert token + v == token;
    } else {
      TokOne(v[0], InString(token, tokens).t);
      assert ScanStep(InString(token, tokens), v[0]) == InString(token + [v[0]], tokens);
      ScanInString(v[1..], token + [v[0]], tokens);
      assert token + [v[0]] + v[1..] == token + v;
    }
  }

  predicate IsBlank(w: string) {
    forall i :: 0 <= i < |w| ==> w[i] == ' ' || w[i] == '\n'
  }

  lemma {:induction false} ScanBlank(w: string, token: string, tokens: seq<string>)
    requires IsBlank(w)
    ensures Scan(w, Clean(token, tokens)) == Clean(token, tokens)
  {
    if w != "" {
      TokOne(' ', Clean(token, tokens).t);
      assert ScanStep(Clean(token, tokens), w[0]) == Clean(token, tokens);
      ScanBlank(w[1..], token, tokens);
    }
  }

  lemma ScanDelimiter(c: char, token: string, tokens: seq<string>)
    requires IsDelimiter(c)
    ensures Scan([c], Clean(token, tokens)) == Clean("", tokens + TokenOf(token) + [[c]])
  {
    TokOne(c, Clean(token, tokens).t);
    assert [c][1..] == "";
  }

  lemma ScanQuote(token: string, tokens: seq<string>)
    ensures Scan("\"", Clean(token, tokens)) == InString(token + "\"", tokens)
    ensures Scan("\"", InString(token, tokens)) == Clean(token + "\"", tokens)
  {
    TokOne('"', Clean(token, tokens).t);
    TokOne('"', InString(token, tokens).t);
    assert "\""[1..] == "";
    assert "\"" == ['"'];
  }

  // ----- the tokens of printed text -----

  predicate IsCleanName(name: string) {
    name != "" && IsPlain(name)
  }

  /** Names are plain and not empty; values hold no quote, backslash or newline. */
  predicate IsPrintable(e: Element) {
    && IsCleanName(e.name)
    && (forall v :: v in e.values ==> IsQuotable(v))
    && (forall c :: c in e.children ==> IsPrintable(c))
  }

  function ValueToken(v: string): seq<string> {
    if v == "" then [] else [v]
  }

  function ListTokens(values: seq<string>): seq<string> {
    if values == [] then []
    else if |values| == 1 then ValueToken(values[0])
    else ValueToken(values[0]) + [","] + ListTokens(values[1..])
  }

  function Tokens(e: Element): seq<string>
    decreases e, 1
  {
    if IsEmptyNode(e) then [] else [e.name, "="] + BodyTokens(e)
  }

  function BodyTokens(e: Element): seq<string>
    decreases e, 0
  {
    if e.children != [] then ["{"] + AllTokens(e.children) + ["}"]
    else if |e.values| == 1 then ValueToken(e.values[0]) + [";"]
    else ["["] + ListTokens(e.values) + ["]"]
  }

  function AllTokens(es: seq<Element>): seq<string> {
    if es == [] then [] else Tokens(es[0]) + AllTokens(es[1..])
  }

  lemma NumericIsPlain(v: string)
    requires IsNumeric(v)
    ensures IsPlain(v)
  {}

  /** A printed value, then a delimiter, gives the value's token and the delimiter. */
  lemma ScanValue(v: string, d: char, tokens: seq<string>)
    requires IsQuotable(v) && IsDelimiter(d)
    ensures Scan(Quoted(v) + [d], Clean("", tokens)) == Clean("", tokens + ValueToken(v) + [[d]])
  {
    ScanAppend(Quoted(v), [d], Clean("", tokens));
    if IsNumeric(v) {
      NumericIsPlain(v);
      ScanPlain(v, "", tokens);
      assert "" + v == v;
      PlainTokenOf(v);
      ScanDelimiter(d, v, tokens);
    } else {
      ScanAppend("\"" + v, "\"", Clean("", tokens));
      ScanAppend("\"", v, Clean("", tokens));
      ScanQuote("", tokens);
      ScanInString(v, "\"", tokens);
      ScanQuote("\"" + v, tokens);
      assert "" + "\"" == "\"";
      QuotedTokenOf(v);
      ScanDelimiter(d, "\"" + v + "\"", tokens);
    }
  }

  lemma PlainTokenOf(w: string)
    requires IsPlain(w)
    ensures TokenOf(w) == ValueToken(w)
  {}

  lemma QuotedTokenOf(v: string)
    ensures TokenOf("\"" + v + "\"") == ValueToken(v)
  {
    var t := "\"" + v + "\"";
    assert t[0] == '"' && t[|t| - 1] == '"' && t[1..|t| - 1] == v;
  }

  lemma ScanListHead(v: string, rest: string, tokens: seq<string>)
    requires IsQuotable(v)
    ensures Scan(Quoted(v) + ", " + rest, Clean("", tokens)) == Scan(rest, Clean("", tokens + ValueToken(v) + [","]))
  {
    hide Scan, Quoted;
    assert Quoted(v) + ", " + rest == (Quoted(v) + [',']) + (" " + rest);
    ScanAppend(Quoted(v) + [','], " " + rest, Clean("", tokens));
    ScanValue(v, ',', tokens);
    ScanAppend(" ", rest, Clean("", tokens + ValueToken(v) + [","]));
    ScanBlank(" ", "", tokens + ValueToken(v) + [","]);
  }

  lemma {:induction false} ScanList(values: seq<string>, tokens: seq<string>)
    requires values != [] && forall v :: v in values ==> IsQuotable(v)
    ensures Scan(WriteList(values) + "]", Clean("", tokens)) == Clean("", tokens + ListTokens(values) + ["]"])
  {
    hide Scan, Quoted, IsQuotable;
    var v, rest := values[0], values[1..];
    if |values| == 1 {
      ScanValue(v, ']', tokens);
      assert [']'] == "]";
    } else {
      var tokens' := tokens + ValueToken(v) + [","];
      assert WriteList(values) + "]" == Quoted(v) + ", " + (WriteList(rest) + "]");
      ScanListHead(v, WriteList(rest) + "]", tokens);
      ScanList(rest, tokens');
      assert tokens + (ValueToken(v) + [","] + ListTokens(rest)) + ["]"] == tokens' + ListTokens(rest) + ["]"];
    }
  }

  /** The start of a printed element: indentation, name and equals sign. */
  lemma ScanHead(name: string, tabs: nat, rest: string, tokens: seq<string>)
    requires IsCleanName(name)
    ensures Scan(Spaces(tabs) + name + " = " + rest, Clean("", tokens)) == Scan(rest, Clean("", tokens + [name, "="]))
  {
    var s := Clean("", tokens);
    ScanAppend(Spaces(tabs) + name + " = ", rest, s);
    ScanAppend(Spaces(tabs) + name, " = ", s);
    ScanAppend(Spaces(tabs), name, s);
    ScanBlank(Spaces(tabs), "", tokens);
    ScanPlain(name, "", tokens);
    assert "" + name == name;
    assert " = " == " " + (['='] + " ");
    ScanAppend(" ", ['='] + " ", Clean(name, tokens));
    ScanBlank(" ", name, tokens);
    ScanAppend(['='], " ", Clean(name, tokens));
    ScanDelimiter('=', name, tokens);
    PlainTokenOf(name);
    assert tokens + [name] + [['=']] == tokens + [name, "="];
    ScanBlank(" ", "", tokens + [name, "="]);
  }

  lemma {:induction false} ScanWrite(e: Element, tabs: nat, tokens: seq<string>)
    requires IsPrintable(e)
    ensures Scan(Write(e, tabs), Clean("", tokens)) == Clean("", tokens + Tokens(e))
    decreases e, 2
  {
    if IsEmptyNode(e) {
      assert tokens + [] == tokens;
    } else {
      var tokens' := tokens + [e.name, "="];
      assert Write(e, tabs) == Spaces(tabs) + e.name + " = " + (WriteBody(e, tabs) + "\n");
      ScanHead(e.name, tabs, WriteBody(e, tabs) + "\n", tokens);
      ScanAppend(WriteBody(e, tabs), "\n", Clean("", tokens'));
      ScanBody(e, tabs, tokens');
      ScanBlank("\n", "", tokens' + BodyTokens(e));
      assert tokens + ([e.name, "="] + BodyTokens(e)) == tokens' + BodyTokens(e);
    }
  }

  lemma {:induction false} ScanBody(e: Element, tabs: nat, tokens: seq<string>)
    requires IsPrintable(e) && !IsEmptyNode(e)
    ensures Scan(WriteBody(e, tabs), Clean("", tokens)) == Clean("", tokens + BodyTokens(e))
    decreases e, 1
  {
    if e.children != [] {
      ScanObject(e.children, tabs, tokens);
    } else if |e.values| == 1 {
      ScanValue(e.values[0], ';', tokens);
      assert Quoted(e.values[0]) + [';'] == WriteBody(e, tabs);
      assert tokens + ValueToken(e.values[0]) + [[';']] == tokens + BodyTokens(e);
    } else {
      ScanBrackets(e.values, tokens);
      assert WriteBody(e, tabs) == ['['] + (WriteList(e.values) + "]");
    }
  }

  lemma ScanBrackets(values: seq<string>, tokens: seq<string>)
    requires values != [] && forall v :: v in values ==> IsQuotable(v)
    ensures Scan(['['] + (WriteList(values) + "]"), Clean("", tokens))
         == Clean("", tokens + (["["] + ListTokens(values) + ["]"]))
  {
    hide Scan, WriteList, ListTokens;
    ScanAppend(['['], WriteList(values) + "]", Clean("", tokens));
    ScanDelimiter('[', "", tokens);
    assert tokens + [] + [['[']] == tokens + ["["];
    ScanList(values, tokens + ["["]);
    assert tokens + (["["] + ListTokens(values) + ["]"]) == tokens + ["["] + ListTokens(values) + ["]"];
  }

  lemma {:induction false} ScanObject(children: seq<Element>, tabs: nat, tokens: seq<string>)
    requires forall c :: c in children ==> IsPrintable(c)
    ensures Scan("{\n" + WriteAll(children, tabs + TABS) + Spaces(tabs) + "}", Clean("", tokens))
         == Clean("", tokens + (["{"] + AllTokens(children) + ["}"]))
    decreases children, 1
  {
    hide Scan, WriteAll, AllTokens, IsPrintable;
    var body := WriteAll(children, tabs + TABS);
    var inner := tokens + ["{"];
    var done := inner + AllTokens(children);
    var s := Clean("", tokens);
    assert "{\n" + body + Spaces(tabs) + "}" == ['{'] + ("\n" + (body + (Spaces(tabs) + ['}'])));
    ScanAppend(['{'], "\n" + (body + (Spaces(tabs) + ['}'])), s);
    ScanDelimiter('{', "", tokens);
    assert tokens + [] + [['{']] == inner;
    ScanAppend("\n", body + (Spaces(tabs) + ['}']), Clean("", inner));
    ScanBlank("\n", "", inner);
    ScanAppend(body, Spaces(tabs) + ['}'], Clean("", inner));
    ScanWriteAll(children, tabs + TABS, inner);
    ScanAppend(Spaces(tabs), ['}'], Clean("", done));
    ScanBlank(Spaces(tabs), "", done);
    ScanDelimiter('}', "", done);
    assert done + [] + [['}']] == tokens + (["{"] + AllTokens(children) + ["}"]);
  }

  /** Printing, preprocessing and tokenizing a forest gives exactly its tokens. */
  lemma {:induction false} ScanWriteAll(es: seq<Element>, tabs: nat, tokens: seq<string>)
    requires forall e :: e in es ==> IsPrintable(e)
    ensures Scan(WriteAll(es, tabs), Clean("", tokens)) == Clean("", tokens + AllTokens(es))
    decreases es, 0
  {
    if es == [] {
      assert tokens + [] == tokens;
    } else {
      ScanAppend(Write(es[0], tabs), WriteAll(es[1..], tabs), Clean("", tokens));
      ScanWrite(es[0], tabs, tokens);
      ScanWriteAll(es[1..], tabs, tokens + Tokens(es[0]));
      assert tokens + (Tokens(es[0]) + AllTokens(es[1..])) == tokens + Tokens(es[0]) + AllTokens(es[1..]);
    }
  }

  // ----- the parser -----

  /** The source's parser loops forever on some malformed input; here it then runs out of fuel. */
  datatype Parsed<T> = OutOfFuel | Done(value: T, index: nat)

  function Next(ts: seq<string>, i: nat): (j: nat)
    requires i < |ts|
    ensures j < |ts|
  {
    if i < |ts| - 1 then i + 1 else i
  }

  /** Steps over an optional semicolon. */
  function SkipSemicolon(ts: seq<string>, i: nat): (j: nat)
    requires i < |ts|
    ensures j < |ts|
  {
    if ts[i] == ";" then Next(ts, i) else i
  }

  function SkipCommas(ts: seq<string>, i: nat, values: seq<string>, fuel: nat): (r: Parsed<seq<string>>)
    requires i < |ts|
    ensures r.Done? ==> r.index < |ts|
    decreases fuel
  {
    if ts[i] != "," then Done(values, i)
    else if fuel == 0 then OutOfFuel
    else SkipCommas(ts, Next(ts, i), values + [""], fuel - 1)
  }

  /** The loop of parseArray, up to the closing bracket. */
  function ParseValues(ts: seq<string>, i: nat, values: seq<string>, fuel: nat): (r: Parsed<seq<string>>)
    requires i < |ts|
    ensures r.Done? ==> r.index < |ts|
    decreases fuel
  {
    if ts[i] == "]" then Done(values, i)
    else if fuel == 0 then OutOfFuel
    else
      var j := Next(ts, i);
      var k := if ts[j] == "," then Next(ts, j) else j;
      match SkipCommas(ts, k, values + [ts[i]], fuel - 1)
      case OutOfFuel => OutOfFuel
      case Done(values', m) => ParseValues(ts, m, values', fuel - 1)
  }

  function ParseArray(ts: seq<string>, i: nat, fuel: nat): (r: Parsed<seq<string>>)
    requires i < |ts|
    ensures r.Done? ==> r.index < |ts|
  {
    match ParseValues(ts, Next(ts, i), [], fuel)
    case OutOfFuel => OutOfFuel
    case Done(values, j) => Done(values, SkipSemicolon(ts, Next(ts, j)))
  }

  /** The loop of parseObject, up to the closing brace. */
  function ParseVars(ts: seq<string>, i: nat, children: seq<Element>, fuel: nat): (r: Parsed<seq<Element>>)
    requires i < |ts|
    ensures r.Done? ==> r.index < |ts|
    decreases fuel, 0
  {
    if ts[i] == "}" then Done(children, i)
    else if fuel == 0 then OutOfFuel
    else
      match ParseVar(ts, i, fuel - 1)
      case OutOfFuel => OutOfFuel
      case Done(e, j) => ParseVars(ts, j, Pushed(children, e), fuel - 1)
  }

  function Pushed(es: seq<Element>, e: Option<Element>): seq<Element> {
    match e
    case None => es
    case Some(x) => es + [x]
  }

  function ParseObject(ts: seq<string>, i: nat, fuel: nat): (r: Parsed<seq<Element>>)
    requires i < |ts|
    ensures r.Done? ==> r.index < |ts|
    decreases fuel, 1
  {
    match ParseVars(ts, Next(ts, i), [], fuel)
    case OutOfFuel => OutOfFuel
    case Done(children, j) => Done(children, SkipSemicolon(ts, Next(ts, j)))
  }

  /** One element; None when an expected token is missing and nothing is pushed. */
  function ParseVar(ts: seq<string>, i: nat, fuel: nat): (r: Parsed<Option<Element>>)
    requires i < |ts|
    ensures r.Done? ==> r.index < |ts|
    decreases fuel, 2
  {
    var name, i1 := ts[i], Next(ts, i);
    if ts[i1] != "=" then Done(None, i1)
    else
      var i2 := Next(ts, i1);
      if ts[i2] == "[" then
        match ParseArray(ts, i2, fuel)
        case OutOfFuel => OutOfFuel
        case Done(values, j) => Done(Some(Element(name, values, [])), j)
      else if ts[i2] == "{" then
        match ParseObject(ts, i2, fuel)
        case OutOfFuel => OutOfFuel
        case Done(children, j) => Done(Some(Element(name, [], children)), j)
      else
        var i3 := Next(ts, i2);
        if ts[i3] != ";" then Done(None, i3)
        else Done(Some(Element(name, [ts[i2]], [])), Next(ts, i3))
  }

  /** The loop of parse, up to the last token. */
  function ParseAll(ts: seq<string>, i: nat, root: seq<Element>, fuel: nat): Parsed<seq<Element>>
    requires i < |ts|
    decreases fuel
  {
    if i == |ts| - 1 then Done(root, i)
    else if fuel == 0 then OutOfFuel
    else
      match ParseVar(ts, i, fuel - 1)
      case OutOfFuel => OutOfFuel
      case Done(e, j) => ParseAll(ts, j, Pushed(root, e), fuel - 1)
  }

  function Parse(ts: seq<string>, fuel: nat): Parsed<seq<Element>> {
    if ts == [] then Done([], 0) else ParseAll(ts, 0, [], fuel)
  }

  // ----- parsing printed tokens -----

  /** A list that reads back: no closing bracket, no comma but in front, no empty value at an end. */
  predicate IsReadableList(values: seq<string>) {
    && values != [] && values[0] != "" && values[|values| - 1] != ""
    && (forall v :: v in values ==> v != "]")
    && (forall i :: 1 <= i < |values| ==> values[i] != ",")
  }

  predicate IsReadable(e: Element) {
    if e.children != [] then forall c :: c in e.children ==> IsReadable(c)
    else if |e.values| == 1 then e.values[0] != "" && e.values[0] != "[" && e.values[0] != "{"
    else e.values == [] || IsReadableList(e.values)
  }

  /** What printing keeps: values are lost beside children, empty nodes are not written. */
  function Prune(e: Element): Element
    decreases e, 1
  {
    Element(e.name, if e.children != [] then [] else e.values, PruneAll(e.children))
  }

  function PruneAll(es: seq<Element>): seq<Element> {
    if es == [] then []
    else if IsEmptyNode(es[0]) then PruneAll(es[1..])
    else [Prune(es[0])] + PruneAll(es[1..])
  }

  ghost predicate At(ts: seq<string>, i: nat, part: seq<string>) {
    i + |part| <= |ts| && ts[i..i + |part|] == part
  }

  lemma AtSplit(ts: seq<string>, i: nat, a: seq<string>, b: seq<string>)
    requires At(ts, i, a + b)
    ensures At(ts, i, a) && At(ts, i + |a|, b)
  {
    var part := ts[i..i + |a + b|];
    assert ts[i..i + |a|] == part[..|a|] && ts[i + |a|..i + |a| + |b|] == part[|a|..];
  }

  lemma AtHead(ts: seq<string>, i: nat, part: seq<string>)
    requires At(ts, i, part) && part != []
    ensures i < |ts| && ts[i] == part[0] && At(ts, i + 1, part[1..])
  {
    assert ts[i..i + |part|][0] == ts[i];
    assert ts[i + 1..i + |part|] == ts[i..i + |part|][1..];
  }

  lemma ListTokensCons(vs: seq<string>)
    requires |vs| > 1
    ensures ListTokens(vs) + ["]"] == ValueToken(vs[0]) + ([","] + (ListTokens(vs[1..]) + ["]"]))
    ensures |ListTokens(vs)| == |ValueToken(vs[0])| + 1 + |ListTokens(vs[1..])|
  {}

  /** Values behind a separator: no delimiter that ends or splits a list, and a last value that shows. */
  predicate IsReadableRest(vs: seq<string>) {
    && vs != [] && vs[|vs| - 1] != ""
    && forall i :: 0 <= i < |vs| ==> vs[i] != "," && vs[i] != "]"
  }

  /** The value loop entered behind a separator. */
  function AfterSeparator(ts: seq<string>, i: nat, values: seq<string>, skipFuel: nat, fuel: nat): Parsed<seq<string>>
    requires i < |ts|
  {
    match SkipCommas(ts, i, values, skipFuel)
    case OutOfFuel => OutOfFuel
    case Done(values', m) => ParseValues(ts, m, values', fuel)
  }

  lemma ParseLastValue(ts: seq<string>, i: nat, values: seq<string>, v: string, fuel: nat)
    requires v != "]" && At(ts, i, [v] + ["]"]) && fuel >= 1
    ensures i < |ts| && ParseValues(ts, i, values, fuel) == Done(values + [v], i + 1)
  {
    hide At;
    AtSplit(ts, i, [v], ["]"]);
    AtHead(ts, i, [v]);
    AtHead(ts, i + 1, ["]"]);
  }

  lemma ParseNextValue(ts: seq<string>, i: nat, values: seq<string>, v: string, rest: seq<string>, fuel: nat)
    requires v != "]" && rest != [] && At(ts, i, [v] + ([","] + rest)) && fuel >= 1
    ensures i + 2 < |ts| && At(ts, i + 2, rest)
    ensures ParseValues(ts, i, values, fuel) == AfterSeparator(ts, i + 2, values + [v], fuel - 1, fuel - 1)
  {
    hide At, SkipCommas;
    AtSplit(ts, i, [v], [","] + rest);
    AtHead(ts, i, [v]);
    AtSplit(ts, i + 1, [","], rest);
    AtHead(ts, i + 1, [","]);
    AtHead(ts, i + 2, rest);
  }

  lemma SkipOneComma(ts: seq<string>, i: nat, values: seq<string>, rest: seq<string>, skipFuel: nat, fuel: nat)
    requires rest != [] && At(ts, i, [","] + rest) && skipFuel >= 1
    ensures i + 1 < |ts| && At(ts, i + 1, rest)
    ensures AfterSeparator(ts, i, values, skipFuel, fuel)
         == AfterSeparator(ts, i + 1, values + [""], skipFuel - 1, fuel)
  {
    hide At, ParseValues;
    AtSplit(ts, i, [","], rest);
    AtHead(ts, i, [","]);
    AtHead(ts, i + 1, rest);
  }

  lemma {:induction false} ParseRest(ts: seq<string>, i: nat, values: seq<string>, vs: seq<string>,
          skipFuel: nat, fuel: nat)
    requires IsReadableRest(vs) && At(ts, i, ListTokens(vs) + ["]"])
    requires skipFuel >= |ListTokens(vs)| && fuel >= |ListTokens(vs)|
    ensures i < |ts| && AfterSeparator(ts, i, values, skipFuel, fuel) == Done(values + vs, i + |ListTokens(vs)|)
    decreases |vs|
  {
    hide At, ParseValues;
    var v, rest := vs[0], vs[1..];
    var tail := ListTokens(rest) + ["]"];
    AtHead(ts, i, ListTokens(vs) + ["]"]);
    if |vs| == 1 {
      ParseLastValue(ts, i, values, v, fuel);
      assert vs == [v];
    } else {
      ListTokensCons(vs);
      hide ListTokens;
      if v == "" {
        assert ValueToken(v) + ([","] + tail) == [","] + tail;
        SkipOneComma(ts, i, values, tail, skipFuel, fuel);
        hide SkipCommas, AfterSeparator;
        ParseRest(ts, i + 1, values + [""], rest, skipFuel - 1, fuel);
      } else {
        assert ts[i] == v;
        assert AfterSeparator(ts, i, values, skipFuel, fuel) == ParseValues(ts, i, values, fuel);
        hide SkipCommas, AfterSeparator;
        ParseNextValue(ts, i, values, v, tail, fuel);
        ParseRest(ts, i + 2, values + [v], rest, fuel - 1, fuel - 1);
      }
      assert values + [v] + rest == values + vs;
    }
  }

  lemma ParseOnList(ts: seq<string>, i: nat, vs: seq<string>, fuel: nat)
    requires IsReadableList(vs) && At(ts, i, ListTokens(vs) + ["]"]) && fuel >= |ListTokens(vs)|
    ensures i < |ts| && ParseValues(ts, i, [], fuel) == Done(vs, i + |ListTokens(vs)|)
  {
    hide At, ParseValues, AfterSeparator;
    var v, rest := vs[0], vs[1..];
    assert v in vs;
    if |vs| == 1 {
      ParseLastValue(ts, i, [], v, fuel);
      assert vs == [] + [v];
    } else {
      ReadableRest(vs);
      ListTokensCons(vs);
      hide ListTokens, IsReadableList, IsReadableRest;
      ParseNextValue(ts, i, [], v, ListTokens(rest) + ["]"], fuel);
      ParseRest(ts, i + 2, [] + [v], rest, fuel - 1, fuel - 1);
      assert [] + [v] + rest == vs;
    }
  }

  lemma ReadableRest(vs: seq<string>)
    requires IsReadableList(vs) && |vs| > 1
    ensures IsReadableRest(vs[1..])
  {
    assert forall k :: 1 <= k < |vs| ==> vs[k] in vs;
  }

  // ----- whole elements -----

  /** No semicolon follows the element that ends before position end. */
  ghost predicate NoSemicolonAt(ts: seq<string>, end: nat) {
    end < |ts| ==> ts[end] != ";"
  }

  /** The index the saturating next() leaves behind an element that ends before end. */
  function Clamp(ts: seq<string>, end: nat): nat
    requires ts != []
  {
    if end < |ts| then end else |ts| - 1
  }

  lemma CleanNameIsNoDelimiter(name: string, d: char)
    requires IsCleanName(name) && IsDelimiter(d)
    ensures name != [d]
  {
    assert IsPlainChar(name[0]);
  }

  /** Text tokens of a forest start with a name, never with a semicolon or a closing brace. */
  lemma {:induction false} AllTokensStart(es: seq<Element>)
    requires forall e :: e in es ==> IsPrintable(e)
    ensures AllTokens(es) != [] ==> AllTokens(es)[0] != ";" && AllTokens(es)[0] != "}"
    ensures AllTokens(es) == [] <==> PruneAll(es) == []
  {
    if es != [] {
      if IsEmptyNode(es[0]) {
        AllTokensStart(es[1..]);
      } else {
        assert es[0] in es;
        CleanNameIsNoDelimiter(es[0].name, ';');
        CleanNameIsNoDelimiter(es[0].name, '}');
      }
    }
  }

  lemma {:induction false} ParseVarOnTokens(ts: seq<string>, i: nat, e: Element, fuel: nat)
    requires IsPrintable(e) && IsReadable(e) && !IsEmptyNode(e)
    requires At(ts, i, Tokens(e)) && NoSemicolonAt(ts, i + |Tokens(e)|) && fuel >= |Tokens(e)|
    ensures i < |ts| && ParseVar(ts, i, fuel) == Done(Some(Prune(e)), Clamp(ts, i + |Tokens(e)|))
    decreases e, 1
  {
    hide At;
    AtSplit(ts, i, [e.name, "="], BodyTokens(e));
    AtHead(ts, i, [e.name, "="]);
    assert [e.name, "="][1..] == ["="];
    AtHead(ts, i + 1, ["="]);
    if e.children != [] {
      ParseObjectOnTokens(ts, i + 2, e.children, fuel);
    } else if |e.values| == 1 {
      AtHead(ts, i + 2, BodyTokens(e));
      assert BodyTokens(e)[1..] == [";"];
      AtHead(ts, i + 3, [";"]);
      assert e.values == [e.values[0]];
    } else {
      ParseArrayOnTokens(ts, i + 2, e.values, fuel);
    }
  }

  lemma ParseArrayOnTokens(ts: seq<string>, i: nat, vs: seq<string>, fuel: nat)
    requires IsReadableList(vs) && At(ts, i, ["["] + ListTokens(vs) + ["]"]) && fuel >= |ListTokens(vs)|
    requires NoSemicolonAt(ts, i + |ListTokens(vs)| + 2)
    ensures i < |ts| && ts[i] == "["
    ensures ParseArray(ts, i, fuel) == Done(vs, Clamp(ts, i + |ListTokens(vs)| + 2))
  {
    hide At, ListTokens, ParseValues;
    assert ["["] + ListTokens(vs) + ["]"] == ["["] + (ListTokens(vs) + ["]"]);
    AtSplit(ts, i, ["["], ListTokens(vs) + ["]"]);
    AtHead(ts, i, ["["]);
    ParseOnList(ts, i + 1, vs, fuel);
    AtSplit(ts, i + 1, ListTokens(vs), ["]"]);
    AtHead(ts, i + 1 + |ListTokens(vs)|, ["]"]);
  }

  lemma {:induction false} ParseObjectOnTokens(ts: seq<string>, i: nat, children: seq<Element>, fuel: nat)
    requires forall c :: c in children ==> IsPrintable(c) && IsReadable(c)
    requires At(ts, i, ["{"] + AllTokens(children) + ["}"]) && fuel >= |AllTokens(children)| + 1
    requires NoSemicolonAt(ts, i + |AllTokens(children)| + 2)
    ensures i < |ts| && ts[i] == "{"
    ensures ParseObject(ts, i, fuel) == Done(PruneAll(children), Clamp(ts, i + |AllTokens(children)| + 2))
    decreases children, 1
  {
    hide At, AllTokens, ParseVars;
    var body := AllTokens(children);
    assert ["{"] + body + ["}"] == ["{"] + (body + ["}"]);
    AtSplit(ts, i, ["{"], body + ["}"]);
    AtHead(ts, i, ["{"]);
    AtSplit(ts, i + 1, body, ["}"]);
    AtHead(ts, i + 1 + |body|, ["}"]);
    ParseVarsOnTokens(ts, i + 1, [], children, fuel);
    assert [] + PruneAll(children) == PruneAll(children);
  }

  lemma AllTokensCons(es: seq<Element>, end: seq<string>)
    requires es != []
    ensures AllTokens(es) + end == Tokens(es[0]) + (AllTokens(es[1..]) + end)
    ensures |AllTokens(es)| == |Tokens(es[0])| + |AllTokens(es[1..])|
  {
    hide Tokens;
  }

  /** Where a forest's tokens split behind its first written element. */
  lemma ForestSplit(ts: seq<string>, i: nat, es: seq<Element>, end: seq<string>)
    requires es != [] && At(ts, i, AllTokens(es) + end) && forall c :: c in es ==> IsPrintable(c)
    requires end == [] || end == ["}"]
    ensures var e, rest := es[0], es[1..];
            && At(ts, i, Tokens(e)) && At(ts, i + |Tokens(e)|, AllTokens(rest) + end)
            && |AllTokens(es)| == |Tokens(e)| + |AllTokens(rest)|
            && (AllTokens(rest) + end != [] ==> i + |Tokens(e)| < |ts| && ts[i + |Tokens(e)|] != ";")
  {
    hide At, Tokens, IsPrintable, AllTokens;
    var e, rest := es[0], es[1..];
    AllTokensCons(es, end);
    AtSplit(ts, i, Tokens(e), AllTokens(rest) + end);
    AllTokensStart(rest);
    if AllTokens(rest) + end != [] {
      AtHead(ts, i + |Tokens(e)|, AllTokens(rest) + end);
    }
  }

  lemma {:induction false} ParseVarsOnTokens(ts: seq<string>, i: nat, done: seq<Element>, es: seq<Element>, fuel: nat)
    requires forall c :: c in es ==> IsPrintable(c) && IsReadable(c)
    requires At(ts, i, AllTokens(es) + ["}"]) && fuel >= |AllTokens(es)| + 1
    ensures i < |ts| && ParseVars(ts, i, done, fuel) == Done(done + PruneAll(es), i + |AllTokens(es)|)
    decreases es, 0
  {
    hide At, ParseVar, Tokens, Prune, IsReadable, IsPrintable;
    AtHead(ts, i, AllTokens(es) + ["}"]);
    if es == [] {
      assert done + [] == done;
    } else {
      var e, rest := es[0], es[1..];
      ForestSplit(ts, i, es, ["}"]);
      if IsEmptyNode(e) {
        EmptyHasNoTokens(e);
        hide ParseVars;
        ParseVarsOnTokens(ts, i, done, rest, fuel);
      } else {
        AllTokensStart(es);
        NodeHasTokens(e);
        ParseVarOnTokens(ts, i, e, fuel - 1);
        hide AllTokens;
        ParseVarsOnTokens(ts, i + |Tokens(e)|, done + [Prune(e)], rest, fuel - 1);
        assert done + [Prune(e)] + PruneAll(rest) == done + PruneAll(es);
      }
    }
  }

  lemma EmptyHasNoTokens(e: Element)
    requires IsEmptyNode(e)
    ensures Tokens(e) == []
  {}

  lemma NodeHasTokens(e: Element)
    requires !IsEmptyNode(e)
    ensures |Tokens(e)| >= 3
  {}

  /** One turn of the top-level loop on a written element. */
  lemma ParseAllStep(ts: seq<string>, i: nat, done: seq<Element>, es: seq<Element>, fuel: nat)
    requires es != [] && forall c :: c in es ==> IsPrintable(c) && IsReadable(c)
    requires At(ts, i, AllTokens(es) + []) && i + |AllTokens(es)| == |ts|
    requires !IsEmptyNode(es[0]) && fuel >= |AllTokens(es)| + 1
    ensures var end := i + |Tokens(es[0])|;
            && i < |ts| && (AllTokens(es[1..]) != [] ==> end < |ts|)
            && ParseAll(ts, i, done, fuel) == ParseAll(ts, Clamp(ts, end), done + [Prune(es[0])], fuel - 1)
  {
    hide At, ParseVar, Prune, IsReadable, IsPrintable;
    ForestSplit(ts, i, es, []);
    NodeHasTokens(es[0]);
    assert AllTokens(es[1..]) + [] == AllTokens(es[1..]);
    hide Tokens, AllTokens;
    ParseVarOnTokens(ts, i, es[0], fuel - 1);
  }

  lemma ForestCons(es: seq<Element>, done: seq<Element>)
    requires es != []
    ensures var e, rest := es[0], es[1..];
            if IsEmptyNode(e) then AllTokens(es) == AllTokens(rest) && PruneAll(es) == PruneAll(rest)
            else done + PruneAll(es) == done + [Prune(e)] + PruneAll(rest) && |Tokens(e)| >= 3
  {
    var e, rest := es[0], es[1..];
    if IsEmptyNode(e) {
      assert [] + AllTokens(rest) == AllTokens(rest);
    } else {
      NodeHasTokens(e);
      assert done + ([Prune(e)] + PruneAll(rest)) == done + [Prune(e)] + PruneAll(rest);
    }
  }

  lemma {:induction false} ParseAllOnTokens(ts: seq<string>, i: nat, done: seq<Element>, es: seq<Element>, fuel: nat)
    requires es != [] && forall c :: c in es ==> IsPrintable(c) && IsReadable(c)
    requires At(ts, i, AllTokens(es) + []) && i + |AllTokens(es)| == |ts|
    requires AllTokens(es) != [] && fuel >= |AllTokens(es)| + 1
    ensures i < |ts| && ParseAll(ts, i, done, fuel) == Done(done + PruneAll(es), |ts| - 1)
    decreases es
  {
    hide At, Tokens, Prune, PruneAll, AllTokens, ParseAll, IsReadable, IsPrintable;
    var e, rest := es[0], es[1..];
    ForestSplit(ts, i, es, []);
    ForestCons(es, done);
    AllTokensStart(rest);
    if IsEmptyNode(e) {
      AllTokensOfNone(rest);
      ParseAllOnTokens(ts, i, done, rest, fuel);
    } else {
      ParseAllStep(ts, i, done, es, fuel);
      if AllTokens(rest) == [] {
        ParseAllStops(ts, done + [Prune(e)], fuel - 1);
        assert done + [Prune(e)] + [] == done + [Prune(e)];
      } else {
        AllTokensOfNone(rest);
        ParseAllOnTokens(ts, i + |Tokens(e)|, done + [Prune(e)], rest, fuel - 1);
      }
    }
  }

  lemma AllTokensOfNone(es: seq<Element>)
    ensures es == [] ==> AllTokens(es) == []
  {}

  lemma ParseAllStops(ts: seq<string>, done: seq<Element>, fuel: nat)
    requires ts != []
    ensures ParseAll(ts, |ts| - 1, done, fuel) == Done(done, |ts| - 1)
  {}

  // ----- the round trip -----

  /** getline ends the last line at the end of the file as well. */
  function WithNewline(text: string): string {
    if text == "" || text[|text| - 1] == '\n' then text else text + "\n"
  }

  const START := PreState(OUTSIDE, false)

  function Preprocessed(text: string): string {
    PreText(WithNewline(text), START)
  }

  function Tokenized(input: string): seq<string> {
    TokText(input, TokState(OUTSIDE, "", [])).tokens
  }

  /** What loading a file yields. */
  function Loaded(text: string, fuel: nat): Parsed<seq<Element>> {
    Parse(Tokenized(Preprocessed(text)), fuel)
  }

  lemma {:induction false} WriteAllEndsLine(es: seq<Element>, tabs: nat)
    ensures WithNewline(WriteAll(es, tabs)) == WriteAll(es, tabs)
  {
    if es != [] {
      WriteAllEndsLine(es[1..], tabs);
    }
  }

  lemma TokensOfPrinted(es: seq<Element>)
    requires forall e :: e in es ==> IsPrintable(e)
    ensures Tokenized(Preprocessed(WriteAll(es, 0))) == AllTokens(es)
  {
    var text, ts := WriteAll(es, 0), AllTokens(es);
    WriteAllEndsLine(es, 0);
    ScanWriteAll(es, 0, []);
    ScanIsTokOfPre(text, Clean("", []));
    assert [] + ts == ts;
  }

  /**
   * Loading what was saved gives the forest back, up to what printing drops, and the
   * parser terminates: any fuel beyond the number of tokens is enough.
   */
  lemma RoundTrip(es: seq<Element>, fuel: nat)
    requires forall e :: e in es ==> IsPrintable(e) && IsReadable(e)
    requires fuel > |AllTokens(es)|
    ensures Tokenized(Preprocessed(WriteAll(es, 0))) == AllTokens(es)
    ensures var r := Loaded(WriteAll(es, 0), fuel); r.Done? && r.value == PruneAll(es)
  {
    var ts := AllTokens(es);
    TokensOfPrinted(es);
    AllTokensStart(es);
    hide WriteAll, Tokenized, Preprocessed;
    if ts != [] {
      assert ts[0..|ts|] == ts && ts + [] == ts;
      ParseAllOnTokens(ts, 0, [], es, fuel);
      assert [] + PruneAll(es) == PruneAll(es);
    }
  }

  /** On malformed text the parser need not end: a list that is not closed outlasts any fuel. */
  lemma UnclosedListNeverEnds(fuel: nat)
    ensures Parse(["a", "=", "["], fuel).OutOfFuel?
  {
    if fuel > 0 {
      UnclosedValues(["a", "=", "["], 2, [], fuel - 1);
    }
  }

  /** At the last token, next() stays where it is, and the loop goes on adding it. */
  lemma {:induction false} UnclosedValues(ts: seq<string>, i: nat, values: seq<string>, fuel: nat)
    requires i < |ts| && i == |ts| - 1 && ts[i] == "["
    ensures ParseValues(ts, i, values, fuel).OutOfFuel?
    decreases fuel
  {
    if fuel > 0 {
      UnclosedValues(ts, i, values + [ts[i]], fuel - 1);
    }
  }

  /** Every node has values or children, and not both. */
  predicate IsShaped(e: Element) {
    && (e.values == [] <==> e.children != [])
    && forall c :: c in e.children ==> IsShaped(c)
  }

  /** Printing drops nothing exactly from forests whose nodes all have either values or children. */
  lemma {:induction false} PruneKeepsIff(es: seq<Element>)
    ensures PruneAll(es) == es <==> forall e :: e in es ==> IsShaped(e)
    ensures |PruneAll(es)| <= |es|
    decreases es
  {
    if es != [] {
      var e, rest := es[0], es[1..];
      PruneKeepsIff(e.children);
      PruneKeepsIff(rest);
      assert forall x :: x in es <==> x == e || x in rest;
      assert (forall x :: x in es ==> IsShaped(x)) <==> IsShaped(e) && forall x :: x in rest ==> IsShaped(x);
      if IsEmptyNode(e) {
        assert !IsShaped(e) && |PruneAll(es)| < |es|;
      } else {
        PruneConsIff(es);
        assert (Prune(e) == e) <==> IsShaped(e);
      }
    }
  }

  lemma PruneConsIff(es: seq<Element>)
    requires es != [] && !IsEmptyNode(es[0])
    ensures PruneAll(es) == es <==> Prune(es[0]) == es[0] && PruneAll(es[1..]) == es[1..]
    ensures |PruneAll(es)| == 1 + |PruneAll(es[1..])|
  {
    hide Prune;
    var p := PruneAll(es);
    assert p == [Prune(es[0])] + PruneAll(es[1..]);
    if p == es {
      assert p[0] == es[0] && p[1..] == es[1..];
    }
    assert es == [es[0]] + es[1..];
  }

  /** For well-shaped forests saving and loading is the identity. */
  lemma RoundTripIsIdentity(es: seq<Element>, fuel: nat)
    requires forall e :: e in es ==> IsPrintable(e) && IsReadable(e) && IsShaped(e)
    requires fuel > |AllTokens(es)|
    ensures var r := Loaded(WriteAll(es, 0), fuel); r.Done? && r.value == es
  {
    RoundTrip(es, fuel);
    PruneKeepsIff(es);
  }
}
