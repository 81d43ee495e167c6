/** src/configor.cpp as an object: quote state, input, token list and index are fields. */
module Configor {
  import opened Options
  import opened ConfigorModel

  class Config {
    var input: string
    var index: nat
    var tokens: seq<string>
    var isString: bool
    var mask: bool
    var root: seq<Element>

    constructor ()
      ensures root == [] && tokens == [] && input == ""
    {
      input, index, tokens, isString, mask, root := "", 0, [], false, false, [];
    }

    method TestChar(c: char) returns (masked: bool)
      modifies `isString, `mask
      ensures (Quote(isString, mask), masked) == TestString(Quote(old(isString), old(mask)), c)
    {
      if isString && c == '\\' {
        mask := !mask;
        if mask {
          return true;
        }
      }
      if !mask && (c == '"' || c == '\'') {
        isString := !isString;
      }
      mask := false;
      return false;
    }

    // ----- preprocess and tokenize -----

    /** Reads the file line by line. */
    method Preprocess(file: string)
      modifies `input, `isString, `mask
      ensures input == Preprocessed(file)
    {
      ghost var text := WithNewline(file);
      input := "";
      isString, mask := false, false;
      var pos := 0;
      assert text[0..] == text && text[|text|..] == "";
      while pos < |file|
        invariant pos <= |text| && (pos >= |file| ==> pos == |text|)
        invariant input + PreText(text[pos..], PreState(Quote(isString, mask), false)) == Preprocessed(file)
        decreases |file| - pos
      {
        hide PreText;
        var end := EndOfLine(file, pos);
        PreprocessLine(file, pos, end);
        pos := end + 1;
      }
    }

    /** One line: blanks outside strings are dropped, a comment ends it, a string keeps its newline. */
    method PreprocessLine(file: string, pos: nat, end: nat)
      requires pos <= end <= |file| && (end < |file| ==> file[end] == '\n')
      requires end == |file| ==> end > 0 && file[end - 1] != '\n'
      requires forall k :: pos <= k < end ==> file[k] != '\n'
      modifies `input, `isString, `mask
      ensures var text, q := WithNewline(file), Quote(isString, mask);
              && end < |text|
              && old(input) + PreText(text[pos..], PreState(Quote(old(isString), old(mask)), false))
              == input + PreText(text[end + 1..], PreState(q, false))
    {
      hide PreText;
      ghost var text := WithNewline(file);
      ghost var skip := false;
      ghost var goal := input + PreText(text[pos..], PreState(Quote(isString, mask), false));
      var j := pos;
      while j < end
        invariant pos <= j <= end && !skip
        invariant input + PreText(text[j..], PreState(Quote(isString, mask), false)) == goal
      {
        var c := file[j];
        PreTextUnfold(text, j, PreState(Quote(isString, mask), false), input);
        if !isString && (c == ' ' || c == '\t') {
          j := j + 1;
          continue;
        }
        if !isString && c == '#' {
          skip := true;
          SkipComment(text, j + 1, end, Quote(isString, mask));
          break;
        }
        var masked := TestChar(c);
        input := input + [c];
        j := j + 1;
      }
      PreTextUnfold(text, end, PreState(Quote(isString, mask), skip), input);
      assert input + "" == input;
      if isString {
        input := input + "\n";
      }
    }

    /** The end of the line that starts at pos: its newline, or the end of the file. */
    method EndOfLine(file: string, pos: nat) returns (end: nat)
      requires pos < |file|
      ensures pos <= end <= |file| && (end < |file| ==> file[end] == '\n')
      ensures forall k :: pos <= k < end ==> file[k] != '\n'
    {
      end := pos;
      while end < |file| && file[end] != '\n'
        invariant pos <= end <= |file|
        invariant forall k :: pos <= k < end ==> file[k] != '\n'
      {
        end := end + 1;
      }
    }

    method Tokenize()
      modifies `tokens, `isString, `mask
      ensures tokens == Tokenized(input)
    {
      tokens := [];
      var token := "";
      isString, mask := false, false;
      assert input[0..] == input && input[|input|..] == "";
      hide TokText;
      for i := 0 to |input|
        invariant TokText(input[i..], TokState(Quote(isString, mask), token, tokens))
               == TokText(input, TokState(OUTSIDE, "", []))
      {
        var c := input[i];
        TokTextUnfold(input, i, TokState(Quote(isString, mask), token, tokens));
        var masked := TestChar(c);
        if masked {
          continue;
        }
        if c == '\n' {
          continue;
        }
        if !isString && IsDelimiter(c) {
          ghost var whole, before := token, tokens;
          if |token| > 0 && token[0] == '"' && token[|token| - 1] == '"' {
            token := if |token| == 1 then "" else token[1..|token| - 1];
          }
          assert token == Cut(whole);
          if token != "" {
            tokens := tokens + [token];
            token := "";
          }
          tokens := tokens + [[c]];
          assert tokens == before + TokenOf(whole) + [[c]];
          continue;
        }
        token := token + [c];
      }
    }

    // ----- the parser; fuel bounds its loops, which the source leaves unbounded -----

    method Advance()
      requires index < |tokens|
      modifies `index
      ensures index == Next(tokens, old(index))
    {
      if index < |tokens| - 1 {
        index := index + 1;
      }
    }

    method SkipOptional()
      requires index < |tokens|
      modifies `index
      ensures index == SkipSemicolon(tokens, old(index))
    {
      if tokens[index] == ";" {
        Advance();
      }
    }

    /** Stray commas, each an empty value. */
    method ReadCommas(values: seq<string>, fuel: nat) returns (r: Option<seq<string>>)
      requires index < |tokens|
      modifies `index
      ensures r.None? ==> SkipCommas(tokens, old(index), values, fuel).OutOfFuel?
      ensures r.Some? ==> SkipCommas(tokens, old(index), values, fuel) == Done(r.value, index)
    {
      var list, f := values, fuel;
      while tokens[index] == ","
        invariant index < |tokens|
        invariant SkipCommas(tokens, index, list, f) == SkipCommas(tokens, old(index), values, fuel)
        decreases f
      {
        if f == 0 {
          return None;
        }
        list := list + [""];
        Advance();
        f := f - 1;
      }
      return Some(list);
    }

    method ReadValues(fuel: nat) returns (r: Option<seq<string>>)
      requires index < |tokens|
      modifies `index
      ensures r.None? ==> ParseValues(tokens, old(index), [], fuel).OutOfFuel?
      ensures r.Some? ==> ParseValues(tokens, old(index), [], fuel) == Done(r.value, index)
    {
      hide SkipCommas;
      var list, f := [], fuel;
      while tokens[index] != "]"
        invariant index < |tokens|
        invariant ParseValues(tokens, index, list, f) == ParseValues(tokens, old(index), [], fuel)
        decreases f
      {
        if f == 0 {
          return None;
        }
        list := list + [tokens[index]];
        Advance();
        if tokens[index] == "," {
          Advance();
        }
        var more := ReadCommas(list, f - 1);
        if more == None {
          return None;
        }
        list, f := more.value, f - 1;
      }
      return Some(list);
    }

    method ReadArray(fuel: nat) returns (r: Option<seq<string>>)
      requires index < |tokens|
      modifies `index
      ensures r.None? ==> ParseArray(tokens, old(index), fuel).OutOfFuel?
      ensures r.Some? ==> ParseArray(tokens, old(index), fuel) == Done(r.value, index) && index < |tokens|
    {
      hide ParseValues;
      Advance();
      r := ReadValues(fuel);
      if r.Some? {
        Advance();
        SkipOptional();
      }
    }

    method ReadObject(fuel: nat) returns (r: Option<seq<Element>>)
      requires index < |tokens|
      modifies `index
      ensures r.None? ==> ParseObject(tokens, old(index), fuel).OutOfFuel?
      ensures r.Some? ==> ParseObject(tokens, old(index), fuel) == Done(r.value, index) && index < |tokens|
      decreases fuel, 1
    {
      hide ParseVar;
      Advance();
      var children: seq<Element>, f: nat := [], fuel;
      ghost var start := index;
      while tokens[index] != "}"
        invariant index < |tokens| && f <= fuel
        invariant ParseVars(tokens, index, children, f) == ParseVars(tokens, start, [], fuel)
        decreases f
      {
        if f == 0 {
          return None;
        }
        var e := ReadVar(children, f - 1);
        if e == None {
          return None;
        }
        children, f := e.value, f - 1;
      }
      Advance();
      SkipOptional();
      return Some(children);
    }

    /** One element, pushed behind the parent's; a missing token leaves the parent as it is. */
    method ReadVar(parent: seq<Element>, fuel: nat) returns (r: Option<seq<Element>>)
      requires index < |tokens|
      modifies `index
      ensures r.None? ==> ParseVar(tokens, old(index), fuel).OutOfFuel?
      ensures r.Some? ==>
                var p := ParseVar(tokens, old(index), fuel);
                index < |tokens| && p.Done? && p.index == index && r.value == Pushed(parent, p.value)
      decreases fuel, 2
    {
      hide ParseArray, ParseObject;
      var name := tokens[index];
      Advance();
      if tokens[index] != "=" {
        return Some(parent);
      }
      Advance();
      if tokens[index] == "[" {
        var values := ReadArray(fuel);
        if values == None {
          return None;
        }
        return Some(parent + [Element(name, values.value, [])]);
      }
      if tokens[index] == "{" {
        var children := ReadObject(fuel);
        if children == None {
          return None;
        }
        return Some(parent + [Element(name, [], children.value)]);
      }
      var value := tokens[index];
      Advance();
      if tokens[index] != ";" {
        return Some(parent);
      }
      Advance();
      return Some(parent + [Element(name, [value], [])]);
    }

    /** False when the fuel runs out. */
    method ParseTokens(fuel: nat) returns (ok: bool)
      modifies `index, `root
      ensures !ok ==> Parse(tokens, fuel).OutOfFuel?
      ensures ok ==> Parse(tokens, fuel).Done? && Parse(tokens, fuel).value == root
    {
      hide ParseVar;
      index := 0;
      root := [];
      if |tokens| == 0 {
        return true;
      }
      var f := fuel;
      while index != |tokens| - 1
        invariant index < |tokens|
        invariant ParseAll(tokens, index, root, f) == ParseAll(tokens, 0, [], fuel)
        decreases f
      {
        if f == 0 {
          return false;
        }
        var e := ReadVar(root, f - 1);
        if e == None {
          return false;
        }
        root, f := e.value, f - 1;
      }
      return true;
    }

    /** The constructor from a stream; without any input the fresh, empty root stays. */
    method Load(text: string, fuel: nat) returns (ok: bool)
      requires root == []
      modifies this
      ensures !ok ==> Loaded(text, fuel).OutOfFuel?
      ensures ok ==> Loaded(text, fuel).Done? && Loaded(text, fuel).value == root
    {
      Preprocess(text);
      if input == "" {
        return true;
      }
      Tokenize();
      ok := ParseTokens(fuel);
    }

    // ----- the printer -----

    method WriteSpaces(file: string, n: nat) returns (out: string)
      ensures out == file + Spaces(n)
    {
      out := file;
      for i := 0 to n
        invariant out == file + Spaces(i)
      {
        out := out + " ";
      }
    }

    method WriteValue(file: string, value: string) returns (out: string)
      ensures out == file + Quoted(value)
    {
      var isNumeric := IsNumeric(value);
      out := file;
      if !isNumeric {
        out := out + "\"";
      }
      out := out + value;
      if !isNumeric {
        out := out + "\"";
      }
    }

    method WriteValues(file: string, values: seq<string>) returns (out: string)
      ensures out == file + WriteList(values)
    {
      out := file;
      assert values[0..] == values && values[|values|..] == [];
      hide WriteList, Quoted;
      for i := 0 to |values|
        invariant out + WriteList(values[i..]) == file + WriteList(values)
      {
        WriteListUnfold(out, values, i);
        out := WriteValue(out, values[i]);
        if i != |values| - 1 {
          out := out + ", ";
        }
      }
      WriteListUnfoldNil(out);
    }

    method WriteElement(file: string, e: Element, tabs: nat) returns (out: string)
      ensures out == file + Write(e, tabs)
      decreases e, 2
    {
      if |e.values| == 0 && |e.children| == 0 {
        return file;
      }
      hide WriteBody, Spaces;
      out := WriteSpaces(file, tabs);
      out := out + e.name + " = ";
      out := WriteElementBody(out, e, tabs);
      out := out + "\n";
      assert out == file + (Spaces(tabs) + e.name + " = " + WriteBody(e, tabs) + "\n");
    }

    method WriteElementBody(file: string, e: Element, tabs: nat) returns (out: string)
      requires !IsEmptyNode(e)
      ensures out == file + WriteBody(e, tabs)
      decreases e, 1
    {
      hide WriteAll, Spaces, WriteList;
      if |e.children| > 0 {
        out := file + "{\n";
        out := WriteElements(out, e.children, tabs + TABS);
        out := WriteSpaces(out, tabs);
        out := out + "}";
        assert out == file + ("{\n" + WriteAll(e.children, tabs + TABS) + Spaces(tabs) + "}");
      } else if |e.values| == 1 {
        if IsNumeric(e.values[0]) {
          out := file + e.values[0] + ";";
        } else {
          out := file + "\"" + e.values[0] + "\";";
        }
        assert out == file + (Quoted(e.values[0]) + ";");
      } else {
        out := file + "[";
        out := WriteValues(out, e.values);
        out := out + "]";
        assert out == file + ("[" + WriteList(e.values) + "]");
      }
    }

    /** The loop over elements, in an object and in save. */
    method WriteElements(file: string, es: seq<Element>, tabs: nat) returns (out: string)
      ensures out == file + WriteAll(es, tabs)
      decreases es, 0
    {
      out := file;
      assert es[0..] == es && es[|es|..] == [];
      for i := 0 to |es|
        invariant out + WriteAll(es[i..], tabs) == file + WriteAll(es, tabs)
      {
        WriteAllUnfold(out, es, i, tabs);
        out := WriteElement(out, es[i], tabs);
      }
    }

    method Save() returns (text: string)
      ensures text == WriteAll(root, 0)
    {
      text := WriteElements("", root, 0);
    }
  }

  lemma WriteListUnfold(before: string, values: seq<string>, i: nat)
    requires i < |values|
    ensures before + WriteList(values[i..]) ==
            before + Quoted(values[i]) + (if i == |values| - 1 then "" else ", ") + WriteList(values[i + 1..])
  {
    assert values[i..][1..] == values[i + 1..];
    var q, rest := Quoted(values[i]), WriteList(values[i + 1..]);
    if i < |values| - 1 {
      assert before + (q + ", " + rest) == before + q + ", " + rest;
    } else {
      assert before + q == before + q + "" + rest;
    }
  }

  lemma WriteListUnfoldNil(before: string)
    ensures before + WriteList([]) == before
  {}

  lemma WriteAllUnfold(before: string, es: seq<Element>, i: nat, tabs: nat)
    requires i < |es|
    ensures before + WriteAll(es[i..], tabs) == before + Write(es[i], tabs) + WriteAll(es[i + 1..], tabs)
  {
    assert es[i..][1..] == es[i + 1..];
    var w, rest := Write(es[i], tabs), WriteAll(es[i + 1..], tabs);
    assert before + (w + rest) == before + w + rest;
  }

  lemma PreTextUnfold(text: string, j: nat, s: PreState, before: string)
    requires j < |text|
    ensures before + PreText(text[j..], s)
         == before + PreStep(s, text[j]).1 + PreText(text[j + 1..], PreStep(s, text[j]).0)
  {
    assert text[j..][1..] == text[j + 1..];
    var out, rest := PreStep(s, text[j]).1, PreText(text[j + 1..], PreStep(s, text[j]).0);
    assert before + (out + rest) == before + out + rest && before + "" == before;
  }

  lemma TokTextUnfold(text: string, i: nat, s: TokState)
    requires i < |text|
    ensures TokText(text[i..], s) == TokText(text[i + 1..], TokStep(s, text[i]))
  {
    assert text[i..][1..] == text[i + 1..];
  }

  lemma {:induction false} SkipComment(text: string, j: nat, end: nat, q: Quote)
    requires j <= end < |text| && forall k :: j <= k < end ==> text[k] != '\n'
    ensures PreText(text[j..], PreState(q, true)) == PreText(text[end..], PreState(q, true))
    decreases end - j
  {
    if j < end {
      SkipComment(text, j + 1, end, q);
      PreTextUnfold(text, j, PreState(q, true), "");
    }
  }
}
