/**
 * src/win/env_variable.cpp, the string loops of PathRemove and PathAdd: editing
 * the text in place is filtering the list of its components.
 */
module EnvVariable {
  import opened Sequences
  import opened StringUtil

  // ----- the components of a search path -----

  function Components(value: string): (fields: seq<string>)
    ensures fields != []
  {
    Split(value, ";")
  }

  predicate StartsWithRun(fields: seq<string>, run: seq<string>) {
    |run| <= |fields| && fields[..|run|] == run
  }

  /** The fields left when, from the left, every run is taken out; a run found is not searched again. */
  function WithoutRuns(fields: seq<string>, run: seq<string>): seq<string>
    requires run != []
    decreases |fields|
  {
    if fields == [] then []
    else if StartsWithRun(fields, run) then WithoutRuns(fields[|run|..], run)
    else [fields[0]] + WithoutRuns(fields[1..], run)
  }

  function CountRuns(fields: seq<string>, run: seq<string>): nat
    requires run != []
    decreases |fields|
  {
    if fields == [] then 0
    else if StartsWithRun(fields, run) then 1 + CountRuns(fields[|run|..], run)
    else CountRuns(fields[1..], run)
  }

  /** value without the components of path wherever they stand in a row; for a path without semicolon, its equals. */
  function Removed(value: string, path: string): string {
    Join(WithoutRuns(Components(value), Components(path)), ";")
  }

  function Occurrences(value: string, path: string): nat {
    CountRuns(Components(value), Components(path))
  }

  /** A whole component equal to path starts at k: the test inside both loops. */
  predicate MatchAt(value: string, path: string, k: int) {
    && OccursAt(value, path, k)
    && (k == 0 || value[k - 1] == ';')
    && (k + |path| == |value| || value[k + |path|] == ';')
  }

  lemma FirstSemicolon(l: string, p: int)
    requires p == Find(l, ";", 0)
    ensures p < 0 ==> ';' !in l && Components(l) == [l]
    ensures p >= 0 ==> p < |l| && l == l[..p] + ";" + l[p + 1..]
  {
    hide Split, Find;
    if p >= 0 {
      FindIsFirst(l, ";", 0);
      CutAt(l, p);
    } else {
      FindChar(l, ';', 0);
      assert l[0..] == l;
      SplitOfCleanField(l, ';');
    }
  }

  lemma CutAt(l: string, p: nat)
    requires OccursAt(l, ";", p)
    ensures p < |l| && l == l[..p] + ";" + l[p + 1..]
  {
    assert l == l[..p] + l[p..p + 1] + l[p + 1..];
  }

  lemma CleanHead(l: string, p: int)
    requires p >= 0 && p == Find(l, ";", 0)
    ensures p < |l| && l == l[..p] + ";" + l[p + 1..] && ';' !in l[..p]
    ensures Components(l) == [l[..p]] + Components(l[p + 1..])
  {
    FirstSemicolon(l, p);
    SplitUnfold(l, ";", p, l[..p], l[p + 1..]);
    SplitFieldsAreClean(l, ';');
    hide Split, Find;
    assert l[..p] in Components(l);
  }

  /** A semicolon between two texts splits them. */
  lemma {:induction false} ComponentsOfConcat(l: string, r: string)
    ensures Components(l + ";" + r) == Components(l) + Components(r)
    decreases |l|
  {
    hide Split, Find;
    var p := Find(l, ";", 0);
    FirstSemicolon(l, p);
    if p < 0 {
      SplitAfterField(l, ';', r);
    } else {
      var head, tail := l[..p], l[p + 1..];
      CleanHead(l, p);
      ComponentsOfConcat(tail, r);
      ConcatParts(head, tail, r);
      SplitAfterField(head, ';', tail + ";" + r);
      Regroup([head], Components(tail), Components(r));
    }
  }

  lemma ConcatParts(head: string, tail: string, r: string)
    ensures (head + ";" + tail) + ";" + r == head + ";" + (tail + ";" + r)
  {}

  // ----- a match is a run of components -----

  /** Text before a component: nothing, or whole components, each with its semicolon. */
  function Before(done: seq<string>): string {
    if done == [] then "" else Join(done, ";") + ";"
  }

  lemma {:induction false} JoinAppend(a: seq<string>, b: seq<string>)
    ensures Join(a + b, ";") == if b == [] then Join(a, ";") else Before(a) + Join(b, ";")
  {
    if a == [] {
      assert a + b == b && a + [] == a;
    } else if b == [] {
      assert a + b == a;
    } else {
      JoinAppend(a[1..], b);
      assert (a + b)[0] == a[0] && (a + b)[1..] == a[1..] + b;
      if |a| > 1 {
        Regroup(a[0] + ";", Join(a[1..], ";") + ";", Join(b, ";"));
        assert a[0] + ";" + (Join(a[1..], ";") + ";") == Join(a, ";") + ";";
      }
    }
  }

  lemma BeforeEmptyIff(done: seq<string>)
    ensures Before(done) == "" <==> done == []
  {}

  lemma BeforeAppend(a: seq<string>, b: seq<string>)
    ensures Before(a + b) == Before(a) + Before(b)
  {
    JoinAppend(a, b);
    if b == [] {
      assert a + b == a;
    } else {
      Regroup(Before(a), Join(b, ";"), ";");
    }
  }

  lemma JoinBack(value: string)
    ensures Join(Components(value), ";") == value
  {
    JoinOfSplit(value, ";");
  }

  /** Text behind a match: nothing, or a semicolon and more. */
  predicate IsRest(rest: string) {
    rest == "" || rest[0] == ';'
  }

  function RestComponents(rest: string): seq<string> {
    if rest == "" then [] else Components(rest[1..])
  }

  lemma PathThenRest(path: string, rest: string)
    requires IsRest(rest)
    ensures Components(path + rest) == Components(path) + RestComponents(rest)
  {
    if rest == "" {
      assert path + rest == path && Components(path) + [] == Components(path);
    } else {
      assert path + rest == path + ";" + rest[1..];
      ComponentsOfConcat(path, rest[1..]);
    }
  }

  lemma MatchAtStartIff(value: string, path: string)
    ensures MatchAt(value, path, 0) <==> StartsWithRun(Components(value), Components(path))
  {
    hide MatchAt, Components, StartsWithRun;
    if MatchAt(value, path, 0) { MatchStartsRun(value, path); }
    if StartsWithRun(Components(value), Components(path)) { RunMatches(value, path); }
  }

  lemma MatchStartsRun(value: string, path: string)
    requires MatchAt(value, path, 0)
    ensures StartsWithRun(Components(value), Components(path))
  {
    hide Components;
    assert value == path + value[|path|..];
    PathThenRest(path, value[|path|..]);
  }

  lemma RunMatches(value: string, path: string)
    requires StartsWithRun(Components(value), Components(path))
    ensures MatchAt(value, path, 0)
  {
    hide Components, MatchAt;
    var run := Components(path);
    var more := Components(value)[|run|..];
    assert Components(value) == run + more;
    JoinAppend(run, more);
    JoinBack(value);
    JoinBack(path);
    hide Join;
    if more == [] {
      MatchAtStart(path, "");
      assert path + "" == path;
    } else {
      MatchAtStart(path, ";" + Join(more, ";"));
      assert path + (";" + Join(more, ";")) == path + ";" + Join(more, ";");
    }
  }

  lemma MatchAtStart(path: string, rest: string)
    requires IsRest(rest)
    ensures MatchAt(path + rest, path, 0)
  {}

  /** Behind whole components, a match in the rest is a match in all. */
  lemma MatchBehindIff(before: string, rest: string, path: string, k: nat)
    requires before == "" || before[|before| - 1] == ';'
    ensures MatchAt(before + rest, path, |before| + k) <==> MatchAt(rest, path, k)
  {
    var at := |before| + k;
    if k + |path| <= |rest| {
      assert (before + rest)[at..at + |path|] == rest[k..k + |path|];
    }
  }

  /** Where nothing matches, nothing is removed. */
  lemma {:induction false} NoMatchKeepsAll(value: string, path: string)
    requires forall j :: 0 <= j <= |value| ==> !MatchAt(value, path, j)
    ensures WithoutRuns(Components(value), Components(path)) == Components(value) && Occurrences(value, path) == 0
    decreases |value|
  {
    hide Split, Find, MatchAt;
    MatchAtStartIff(value, path);
    var p := Find(value, ";", 0);
    FirstSemicolon(value, p);
    if p < 0 {
      NoRunInOne(value, Components(path));
    } else {
      CleanHead(value, p);
      var head, rest := value[..p], value[p + 1..];
      forall j | 0 <= j <= |rest| ensures !MatchAt(rest, path, j) {
        MatchBehindIff(head + ";", rest, path, j);
      }
      NoMatchKeepsAll(rest, path);
      NextComponent(head, Components(rest), Components(path));
    }
  }

  lemma NoRunInOne(field: string, run: seq<string>)
    requires run != [] && !StartsWithRun([field], run)
    ensures WithoutRuns([field], run) == [field] && CountRuns([field], run) == 0
  {}

  lemma NextComponent(head: string, fields: seq<string>, run: seq<string>)
    requires run != [] && !StartsWithRun([head] + fields, run)
    ensures WithoutRuns([head] + fields, run) == [head] + WithoutRuns(fields, run)
    ensures CountRuns([head] + fields, run) == CountRuns(fields, run)
  {
    assert ([head] + fields)[1..] == fields;
  }

  lemma RunComesFirst(run: seq<string>, fields: seq<string>)
    requires run != []
    ensures WithoutRuns(run + fields, run) == WithoutRuns(fields, run)
    ensures CountRuns(run + fields, run) == 1 + CountRuns(fields, run)
  {
    assert (run + fields)[..|run|] == run && (run + fields)[|run|..] == fields;
  }

  /** The first match: components skipped, the run taken out, and the rest. */
  lemma {:induction false} FirstMatch(value: string, path: string, k: nat) returns (skipped: seq<string>)
    requires MatchAt(value, path, k) && forall j :: 0 <= j < k ==> !MatchAt(value, path, j)
    ensures value[..k] == Before(skipped) && IsRest(value[k + |path|..])
    ensures var more := RestComponents(value[k + |path|..]); var run := Components(path);
            && Components(value) == skipped + (run + more)
            && WithoutRuns(Components(value), run) == skipped + WithoutRuns(more, run)
            && Occurrences(value, path) == 1 + CountRuns(more, run)
    decreases |value|
  {
    hide Split, Find, MatchAt, Components, WithoutRuns, StartsWithRun, Occurrences, IsRest, RestComponents, Before;
    MatchEdges(value, path, k);
    if k == 0 {
      skipped := [];
      MatchInFront(value, path);
    } else {
      var p := Find(value, ";", 0);
      FirstSemicolon(value, p);
      SemicolonBefore(value, k, p);
      CleanHead(value, p);
      var head, tail := value[..p], value[p + 1..];
      NotInFront(head, tail, path, k - p - 1);
      var behind := FirstMatch(tail, path, k - p - 1);
      skipped := [head] + behind;
      MatchFurther(head, tail, path, k - p - 1, behind);
    }
  }

  lemma MatchEdges(value: string, path: string, k: nat)
    requires MatchAt(value, path, k)
    ensures k + |path| <= |value| && (k > 0 ==> value[k - 1] == ';')
  {}

  lemma MatchInFront(value: string, path: string)
    requires MatchAt(value, path, 0)
    ensures IsRest(value[|path|..]) && value[..0] == Before([])
    ensures var more := RestComponents(value[|path|..]); var run := Components(path);
            && Components(value) == [] + (run + more)
            && WithoutRuns(Components(value), run) == [] + WithoutRuns(more, run)
            && Occurrences(value, path) == 1 + CountRuns(more, run)
  {
    var rest := value[|path|..];
    assert value == path + rest;
    PathThenRest(path, rest);
    RunComesFirst(Components(path), RestComponents(rest));
  }

  lemma NotInFront(head: string, tail: string, path: string, k: nat)
    requires MatchAt(head + ";" + tail, path, |head| + 1 + k)
    requires forall j :: 0 <= j < |head| + 1 + k ==> !MatchAt(head + ";" + tail, path, j)
    ensures MatchAt(tail, path, k) && forall j :: 0 <= j < k ==> !MatchAt(tail, path, j)
    ensures !StartsWithRun(Components(head + ";" + tail), Components(path))
  {
    MatchAtStartIff(head + ";" + tail, path);
    hide MatchAt, StartsWithRun, Components;
    MatchBehindIff(head + ";", tail, path, k);
    forall j | 0 <= j < k ensures !MatchAt(tail, path, j) {
      MatchBehindIff(head + ";", tail, path, j);
    }
  }

  lemma MatchFurther(head: string, tail: string, path: string, k: nat, behind: seq<string>)
    requires MatchAt(tail, path, k) && tail[..k] == Before(behind)
    requires Components(head + ";" + tail) == [head] + Components(tail)
    requires !StartsWithRun(Components(head + ";" + tail), Components(path))
    requires var more := RestComponents(tail[k + |path|..]); var run := Components(path);
             && Components(tail) == behind + (run + more)
             && WithoutRuns(Components(tail), run) == behind + WithoutRuns(more, run)
             && Occurrences(tail, path) == 1 + CountRuns(more, run)
    ensures var value, at, skipped := head + ";" + tail, |head| + 1 + k, [head] + behind;
            && value[at + |path|..] == tail[k + |path|..] && value[..at] == Before(skipped)
            && var more := RestComponents(tail[k + |path|..]); var run := Components(path);
            && Components(value) == skipped + (run + more)
            && WithoutRuns(Components(value), run) == skipped + WithoutRuns(more, run)
            && Occurrences(value, path) == 1 + CountRuns(more, run)
  {
    MatchEdges(tail, path, k);
    hide MatchAt, Components, StartsWithRun, WithoutRuns, CountRuns, RestComponents, Before;
    var more, run := RestComponents(tail[k + |path|..]), Components(path);
    RunsFurther(head, Components(tail), run, behind, more);
    BeforeNext(head, behind);
    TextFurther(head, tail, k, |path|);
  }

  lemma RunsFurther(head: string, fields: seq<string>, run: seq<string>, behind: seq<string>, more: seq<string>)
    requires run != [] && !StartsWithRun([head] + fields, run)
    requires fields == behind + (run + more) && WithoutRuns(fields, run) == behind + WithoutRuns(more, run)
    ensures var skipped := [head] + behind;
            && [head] + fields == skipped + (run + more)
            && WithoutRuns([head] + fields, run) == skipped + WithoutRuns(more, run)
            && CountRuns([head] + fields, run) == CountRuns(fields, run)
  {
    NextComponent(head, fields, run);
    hide StartsWithRun, WithoutRuns, CountRuns;
    Regroup([head], behind, run + more);
    Regroup([head], behind, WithoutRuns(more, run));
  }

  lemma BeforeNext(head: string, behind: seq<string>)
    ensures Before([head] + behind) == head + ";" + Before(behind)
  {
    BeforeAppend([head], behind);
    BeforeOne(head);
  }

  lemma BeforeOne(head: string)
    ensures Before([head]) == head + ";"
  {}

  lemma TextFurther(head: string, tail: string, k: nat, n: nat)
    requires k + n <= |tail|
    ensures var value, at := head + ";" + tail, |head| + 1 + k;
            value[at + n..] == tail[k + n..] && value[..at] == head + ";" + tail[..k]
  {}

  lemma SemicolonBefore(value: string, k: nat, p: int)
    requires 0 < k <= |value| && value[k - 1] == ';' && p == Find(value, ";", 0)
    ensures 0 <= p < k
  {
    FindIsFirst(value, ";", 0);
    assert value[k - 1..k] == ";";
    assert OccursAt(value, ";", k - 1);
  }

  /** What the removal branch makes of value when the match is at k. */
  function Edited(value: string, path: string, k: nat): string
    requires MatchAt(value, path, k)
  {
    if k == 0 then
      if |path| == |value| then "" else value[|path| + 1..]
    else value[..k - 1] + value[k + |path|..]
  }

  /** The edit takes out the run and one semicolon. */
  lemma EditedText(value: string, path: string, done: seq<string>, k: nat)
    requires MatchAt(value, path, k) && value[..k] == Before(done)
    ensures var rest := value[k + |path|..];
            && (rest != "" ==> Edited(value, path, k) == Before(done) + rest[1..] && |Before(done)| == k)
            && (rest == "" ==> Edited(value, path, k) == Join(done, ";"))
  {
    BeforeEmptyIff(done);
    if k == 0 {
      assert value == path + value[|path|..];
    } else {
      hide MatchAt, Join;
      var text, n := Join(done, ";"), k + |path|;
      assert value[..k - 1] == (text + ";")[..k - 1] == text;
      EditedBehind(value, path, k);
      if value[n..] != "" {
        CutSemicolon(text, value[n..]);
      } else {
        assert text + "" == text;
      }
    }
  }

  lemma EditedBehind(value: string, path: string, k: nat)
    requires MatchAt(value, path, k) && k > 0
    ensures var rest := value[k + |path|..];
            && Edited(value, path, k) == value[..k - 1] + rest && (rest != "" ==> rest[0] == ';')
  {}

  lemma CutSemicolon(text: string, rest: string)
    requires rest != "" && rest[0] == ';'
    ensures text + rest == text + ";" + rest[1..]
  {}

  // ----- the loops -----

  /** The next occurrence from from on is at pos. */
  lemma OccurrenceAt(value: string, path: string, from: nat, pos: int)
    requires pos == Find(value, path, from)
    ensures pos >= 0 ==> pos >= from && OccursAt(value, path, pos)
    ensures forall j :: from <= j && (pos < 0 || j < pos) ==> !MatchAt(value, path, j)
  {
    FindIsFirst(value, path, from);
  }

  /** Where the loop stands: done components, the text behind them, and how far it has been searched. */
  ghost predicate Standing(value: string, path: string, done: seq<string>, rest: string, from: nat) {
    && value == Before(done) + rest && |Before(done)| <= from
    && forall j :: |Before(done)| <= j < from ==> !MatchAt(value, path, j)
  }

  /** What is still to come makes up the result. */
  ghost predicate Adds(stored: string, path: string, done: seq<string>, rest: string, count: nat) {
    var run := Components(path);
    && Join(done + WithoutRuns(Components(rest), run), ";") == Removed(stored, path)
    && count + CountRuns(Components(rest), run) == Occurrences(stored, path)
  }

  lemma StandsAtStart(value: string, path: string)
    ensures Standing(value, path, [], value, 0) && Adds(value, path, [], value, 0)
  {
    assert "" + value == value;
    var kept := WithoutRuns(Components(value), Components(path));
    assert [] + kept == kept;
  }

  lemma SearchSkips(value: string, path: string, done: seq<string>, rest: string, from: nat, pos: nat)
    requires Standing(value, path, done, rest, from) && pos == Find(value, path, from) && !MatchAt(value, path, pos)
    ensures pos >= from && Standing(value, path, done, rest, pos + 1)
  {
    OccurrenceAt(value, path, from, pos);
  }

  lemma EndsInSemicolon(done: seq<string>)
    ensures Before(done) == "" || Before(done)[|Before(done)| - 1] == ';'
  {}

  lemma FirstInRest(value: string, path: string, done: seq<string>, rest: string, from: nat, pos: nat)
    returns (k: nat)
    requires Standing(value, path, done, rest, from) && pos == Find(value, path, from) && MatchAt(value, path, pos)
    ensures pos >= from && value == Before(done) + rest && pos == |Before(done)| + k
    ensures MatchAt(rest, path, k) && forall j :: 0 <= j < k ==> !MatchAt(rest, path, j)
  {
    OccurrenceAt(value, path, from, pos);
    EndsInSemicolon(done);
    var before := Before(done);
    hide MatchAt, Before;
    k := pos - |before|;
    MatchBehindIff(before, rest, path, k);
    forall j | 0 <= j < k ensures !MatchAt(rest, path, j) {
      MatchBehindIff(before, rest, path, j);
    }
  }

  /** The first match in what is still to come. */
  lemma MatchSplits(value: string, path: string, done: seq<string>, rest: string, from: nat, pos: nat)
    returns (skipped: seq<string>)
    requires Standing(value, path, done, rest, from) && pos == Find(value, path, from) && MatchAt(value, path, pos)
    ensures pos >= from && value[..pos] == Before(done + skipped) && IsRest(value[pos + |path|..])
    ensures var more := RestComponents(value[pos + |path|..]); var run := Components(path);
            && Components(rest) == skipped + (run + more)
            && WithoutRuns(Components(rest), run) == skipped + WithoutRuns(more, run)
            && CountRuns(Components(rest), run) == 1 + CountRuns(more, run)
  {
    hide MatchAt, Before, Standing, IsRest, RestComponents, WithoutRuns, CountRuns, Components, Find;
    var k := FirstInRest(value, path, done, rest, from, pos);
    skipped := FirstMatch(rest, path, k);
    BeforeAppend(done, skipped);
    MatchEdges(rest, path, k);
    TextBehind(Before(done), rest, k, |path|);
  }

  lemma TextBehind(before: string, rest: string, k: nat, n: nat)
    requires k + n <= |rest|
    ensures var value, at := before + rest, |before| + k;
            value[at + n..] == rest[k + n..] && value[..at] == before + rest[..k]
  {}

  /** With more text behind it, the edit leaves the loop standing behind the skipped components. */
  lemma EditGoesOn(stored: string, value: string, path: string, done: seq<string>, rest: string, from: nat,
          pos: nat, count: nat)
    returns (done': seq<string>, rest': string)
    requires Standing(value, path, done, rest, from) && pos == Find(value, path, from) && MatchAt(value, path, pos)
    requires Adds(stored, path, done, rest, count) && pos + |path| < |value|
    ensures var edited := Edited(value, path, pos);
            && Standing(edited, path, done', rest', pos) && Adds(stored, path, done', rest', count + 1)
            && |edited| < |value| && pos >= from
            && Removable(path, done + Components(rest)) == Removable(path, done' + Components(rest'))
  {
    var skipped := MatchSplits(value, path, done, rest, from, pos);
    done', rest' := done + skipped, value[pos + |path|..][1..];
    EditedText(value, path, done', pos);
    var run, more := Components(path), Components(rest');
    Regroup(done, skipped, WithoutRuns(more, run));
    Regroup(done, skipped, run + more);
    RemovableRun(path, done', more);
  }

  /** At the end of the text the edit is the result. */
  lemma EditEnds(stored: string, value: string, path: string, done: seq<string>, rest: string, from: nat,
          pos: nat, count: nat)
    requires Standing(value, path, done, rest, from) && pos == Find(value, path, from) && MatchAt(value, path, pos)
    requires Adds(stored, path, done, rest, count) && pos + |path| == |value|
    requires Removable(path, done + Components(rest))
    ensures var edited := Edited(value, path, pos);
            && edited == Removed(stored, path) && count + 1 == Occurrences(stored, path)
            && |edited| <= |value| && pos >= from && Find(edited, path, pos) == -1
  {
    var skipped := MatchSplits(value, path, done, rest, from, pos);
    assert value[pos + |path|..] == "";
    EditedText(value, path, done + skipped, pos);
    AddsLast(stored, path, done, rest, skipped, count);
    if pos == 0 && path == "" {
      assert value == "" && Before(done + skipped) == "";
      NothingRemovable(done, rest, skipped);
    }
  }

  lemma AddsLast(stored: string, path: string, done: seq<string>, rest: string, skipped: seq<string>, count: nat)
    requires Adds(stored, path, done, rest, count)
    requires WithoutRuns(Components(rest), Components(path)) == skipped + WithoutRuns([], Components(path))
    requires CountRuns(Components(rest), Components(path)) == 1 + CountRuns([], Components(path))
    ensures Join(done + skipped, ";") == Removed(stored, path) && count + 1 == Occurrences(stored, path)
  {
    assert done + (skipped + []) == done + skipped;
  }

  lemma NothingRemovable(done: seq<string>, rest: string, skipped: seq<string>)
    requires Before(done + skipped) == "" && Components(rest) == skipped + (Components("") + [])
    ensures !Removable("", done + Components(rest))
  {
    BeforeEmptyIff(done + skipped);
    EmptyComponents();
    assert done == [] && skipped == [];
    assert done + Components(rest) == [""];
  }

  lemma EmptyComponents()
    ensures Components("") == [""]
  {}

  /** The loop does not end on an empty path when all components are empty. */
  ghost predicate Removable(path: string, fields: seq<string>) {
    path != "" || exists f :: f in fields && f != ""
  }

  lemma RemovableRun(path: string, a: seq<string>, b: seq<string>)
    ensures Removable(path, a + (Components(path) + b)) == Removable(path, a + b)
  {
    if path == "" {
      EmptyComponents();
      hide Components;
      Members(a, [""] + b);
      Members([""], b);
      Members(a, b);
    }
  }

  lemma SearchEnds(stored: string, value: string, path: string, done: seq<string>, rest: string, from: nat,
          pos: int, count: nat)
    requires Standing(value, path, done, rest, from) && pos == Find(value, path, from) && pos < 0
    requires Adds(stored, path, done, rest, count)
    ensures value == Removed(stored, path) && count == Occurrences(stored, path)
  {
    OccurrenceAt(value, path, from, pos);
    EndsInSemicolon(done);
    forall j | 0 <= j <= |rest| ensures !MatchAt(rest, path, j) {
      MatchBehindIff(Before(done), rest, path, j);
    }
    NoMatchKeepsAll(rest, path);
    JoinAppend(done, Components(rest));
    JoinBack(rest);
  }

  /** PathRemove: value is edited in place; var.set(value) stores the result. */
  method PathRemove(stored: string, path: string) returns (value: string, count: nat)
    requires Removable(path, Components(stored))
    ensures value == Removed(stored, path) && count == Occurrences(stored, path)
  {
    hide Find, MatchAt, Standing, Adds, Removed, Occurrences, Components, Edited, Removable;
    count := 0;
    value := stored;
    ghost var from, done: seq<string>, rest, ended := 0, [], stored, false;
    StandsAtStart(stored, path);
    assert done + Components(rest) == Components(stored);
    var pos := Find(value, path, 0);
    while pos >= 0
      invariant ended ==> pos < 0 && value == Removed(stored, path) && count == Occurrences(stored, path)
      invariant !ended ==>
                  && pos == Find(value, path, from) && Standing(value, path, done, rest, from)
                  && Adds(stored, path, done, rest, count) && Removable(path, done + Components(rest))
      decreases |value| + (if ended then 0 else 1) - from
    {
      OccurrenceAt(value, path, from, pos);
      var whole := WholeComponent(value, path, pos);
      if whole {
        if pos + |path| == |value| {
          EditEnds(stored, value, path, done, rest, from, pos, count);
          ended := true;
        } else {
          done, rest := EditGoesOn(stored, value, path, done, rest, from, pos, count);
        }
        count := count + 1;
        value := Erase(value, path, pos);
        from := pos;
        pos := Find(value, path, pos);
      } else {
        SearchSkips(value, path, done, rest, from, pos);
        from := pos + 1;
        pos := Find(value, path, pos + 1);
      }
    }
    if !ended {
      SearchEnds(stored, value, path, done, rest, from, pos, count);
    }
  }

  method WholeComponent(value: string, path: string, pos: nat) returns (whole: bool)
    requires OccursAt(value, path, pos)
    ensures whole == MatchAt(value, path, pos)
  {
    whole := (0 == pos || ';' == value[pos - 1]) && (pos + |path| == |value| || ';' == value[pos + |path|]);
  }

  /** value.replace(pos, n, "") and its neighbours in the removal branch. */
  method Erase(value: string, path: string, pos: nat) returns (edited: string)
    requires MatchAt(value, path, pos)
    ensures edited == Edited(value, path, pos)
  {
    var length := |path|;
    if 0 == pos {
      if length == |value| {
        edited := "";
      } else {
        edited := Replace(value, pos, length + 1);
      }
    } else {
      edited := Replace(value, pos - 1, length + 1);
    }
  }

  /** std::wstring::replace(pos, n, L"") */
  function Replace(value: string, pos: nat, n: nat): string
    requires pos + n <= |value|
  {
    value[..pos] + value[pos + n..]
  }

  /** PathAdd: what the Path variable holds afterwards. */
  method PathAdd(stored: string, path: string) returns (value: string)
    ensures value == Added(stored, path)
  {
    hide Find, MatchAt, Occurrences, Standing, Adds;
    ghost var from := 0;
    StandsAtStart(stored, path);
    var pos := Find(stored, path, 0);
    while pos >= 0
      invariant pos == Find(stored, path, from) && Standing(stored, path, [], stored, from)
      decreases |stored| + 1 - from
    {
      OccurrenceAt(stored, path, from, pos);
      var whole := WholeComponent(stored, path, pos);
      if whole {
        MatchCounts(stored, path, from, pos);
        return stored;
      }
      SearchSkips(stored, path, [], stored, from, pos);
      from := pos + 1;
      pos := Find(stored, path, pos + 1);
    }
    SearchEnds(stored, stored, path, [], stored, from, pos, 0);
    if 0 == |stored| {
      value := path;
    } else {
      value := stored + (";" + path);
    }
  }

  lemma MatchCounts(value: string, path: string, from: nat, pos: nat)
    requires Standing(value, path, [], value, from) && pos == Find(value, path, from) && MatchAt(value, path, pos)
    ensures Occurrences(value, path) > 0
  {
    var skipped := MatchSplits(value, path, [], value, from, pos);
  }

  function Added(stored: string, path: string): string {
    if Occurrences(stored, path) > 0 then stored
    else if stored == "" then path
    else stored + (";" + path)
  }

  // ----- what the loops do to the components -----

  /** Something is counted just when the run stands somewhere. */
  lemma {:induction false} RunOccursIff(fields: seq<string>, run: seq<string>)
    requires run != []
    ensures CountRuns(fields, run) > 0 <==> exists i :: 0 <= i <= |fields| && StartsWithRun(fields[i..], run)
    decreases |fields|
  {
    if fields == [] {
      assert forall i :: 0 <= i <= |fields| ==> fields[i..] == [];
    } else if StartsWithRun(fields, run) {
      assert StartsWithRun(fields[0..], run) by { assert fields[0..] == fields; }
    } else {
      RunOccursIff(fields[1..], run);
      OneFurther(fields, run);
    }
  }

  lemma OneFurther(fields: seq<string>, run: seq<string>)
    requires fields != [] && !StartsWithRun(fields, run)
    ensures (exists i :: 0 <= i <= |fields| && StartsWithRun(fields[i..], run)) <==>
            exists i :: 0 <= i <= |fields| - 1 && StartsWithRun(fields[1..][i..], run)
  {
    assert fields[0..] == fields;
    hide StartsWithRun;
    forall i | 0 <= i <= |fields| - 1 ensures fields[1..][i..] == fields[i + 1..] {
      assert fields[1..][i..] == fields[i + 1..];
    }
    if i :| 0 <= i <= |fields| && StartsWithRun(fields[i..], run) {
      assert StartsWithRun(fields[1..][i - 1..], run);
    }
  }

  /** What is kept and what is counted make up all there was. */
  lemma {:induction false} CountsTheRemoved(fields: seq<string>, run: seq<string>)
    requires run != []
    ensures |WithoutRuns(fields, run)| + |run| * CountRuns(fields, run) == |fields|
    decreases |fields|
  {
    if fields != [] {
      if StartsWithRun(fields, run) {
        CountsTheRemoved(fields[|run|..], run);
        OneMore(|run|, CountRuns(fields[|run|..], run));
      } else {
        CountsTheRemoved(fields[1..], run);
      }
    }
  }

  lemma OneMore(m: nat, n: nat)
    ensures m * (1 + n) == m + m * n
  {}

  function CountOf(fields: seq<string>, x: string): nat {
    if fields == [] then 0 else (if fields[0] == x then 1 else 0) + CountOf(fields[1..], x)
  }

  /** A path that names one component. */
  predicate IsComponent(path: string) {
    ';' !in path
  }

  lemma {:induction false} SingleRun(fields: seq<string>, x: string)
    ensures WithoutRuns(fields, [x]) == Without(fields, x) && CountRuns(fields, [x]) == CountOf(fields, x)
    decreases |fields|
  {
    if fields != [] {
      assert StartsWithRun(fields, [x]) <==> fields[0] == x by {
        assert fields[..1] == [fields[0]];
      }
      SingleRun(fields[1..], x);
    }
  }

  /** For one directory: its equals are filtered out, and their number is the result. */
  lemma RemovedIsFilter(value: string, path: string)
    requires IsComponent(path)
    ensures Removed(value, path) == Join(Without(Components(value), path), ";")
    ensures Occurrences(value, path) == CountOf(Components(value), path)
    ensures Occurrences(value, path) > 0 <==> path in Components(value)
  {
    SplitOfCleanField(path, ';');
    SingleRun(Components(value), path);
    CountOfIff(Components(value), path);
  }

  lemma {:induction false} CountOfIff(fields: seq<string>, x: string)
    ensures CountOf(fields, x) > 0 <==> x in fields
  {
    if fields != [] {
      CountOfIff(fields[1..], x);
      assert fields == [fields[0]] + fields[1..];
    }
  }

  lemma {:induction false} WithoutKeeps(fields: seq<string>, x: string)
    ensures forall f :: f in Without(fields, x) <==> f in fields && f != x
  {
    if fields != [] {
      WithoutKeeps(fields[1..], x);
      assert fields == [fields[0]] + fields[1..];
    }
  }

  /** PathRemove leaves no component equal to path. */
  lemma RemovedHasNone(value: string, path: string)
    requires IsComponent(path) && Removable(path, Components(value))
    ensures path !in Components(Removed(value, path))
  {
    RemovedIsFilter(value, path);
    SplitFieldsAreClean(value, ';');
    var left := Without(Components(value), path);
    assert forall f :: f in Components(value) ==> ';' !in f;
    hide Components;
    WithoutKeeps(Components(value), path);
    if left == [] {
      EmptyComponents();
    } else {
      JoinedComponents(left);
    }
  }

  lemma JoinedComponents(fields: seq<string>)
    requires fields != [] && forall f :: f in fields ==> ';' !in f
    ensures Components(Join(fields, ";")) == fields
  {
    SplitOfJoin(fields, ';');
  }

  /** An empty path and empty components: the search finds the same place again after every edit, for ever. */
  lemma EmptyPathNeverEnds(value: string)
    requires !Removable("", Components(value))
    ensures Find(value, "", 0) == 0 && MatchAt(value, "", 0)
    ensures !Removable("", Components(Edited(value, "", 0)))
  {
    EmptyComponents();
    assert Components(value)[0] in Components(value);
    assert Components(value)[..1] == [""];
    MatchAtStartIff(value, "");
    MatchInFront(value, "");
    hide Components;
    assert value[0..] == value;
    Members([""], RestComponents(value));
  }

  /** PathAdd puts the components of path behind the others, and a second call changes nothing. */
  lemma AddedComponents(stored: string, path: string)
    ensures Occurrences(stored, path) == 0 && stored != "" ==>
              Components(Added(stored, path)) == Components(stored) + Components(path)
    ensures Occurrences(Added(stored, path), path) > 0
    ensures Added(Added(stored, path), path) == Added(stored, path)
  {
    hide Components, WithoutRuns, CountRuns, StartsWithRun;
    if Occurrences(stored, path) == 0 {
      var run := Components(path);
      var fields := if stored == "" then run else Components(stored) + run;
      if stored != "" {
        ComponentsOfConcat(stored, path);
        assert stored + ";" + path == stored + (";" + path);
      }
      RunAtEnd(fields, run);
    }
  }

  lemma RunAtEnd(fields: seq<string>, run: seq<string>)
    requires run != [] && |run| <= |fields| && fields[|fields| - |run|..] == run
    ensures CountRuns(fields, run) > 0
  {
    assert StartsWithRun(fields[|fields| - |run|..], run);
    RunOccursIff(fields, run);
  }

  // ----- removing what was added -----

  /** Where the run stands first; |fields| if nowhere. */
  function FirstRun(fields: seq<string>, run: seq<string>): (i: nat)
    requires run != []
    ensures i <= |fields| && (i < |fields| ==> StartsWithRun(fields[i..], run))
    ensures forall j :: 0 <= j < i ==> !StartsWithRun(fields[j..], run)
    decreases |fields|
  {
    if fields == [] then 0
    else if StartsWithRun(fields, run) then
      assert fields[0..] == fields;
      0
    else
      var i := 1 + FirstRun(fields[1..], run);
      assert fields[0..] == fields && fields[i..] == fields[1..][i - 1..];
      assert forall j :: 1 <= j < i ==> fields[j..] == fields[1..][j - 1..];
      i
  }

  lemma {:induction false} KeptBeforeFirst(fields: seq<string>, run: seq<string>, i: nat)
    requires run != [] && i <= |fields| && forall j :: 0 <= j < i ==> !StartsWithRun(fields[j..], run)
    ensures WithoutRuns(fields, run) == fields[..i] + WithoutRuns(fields[i..], run)
    decreases i
  {
    if i == 0 {
      assert fields[0..] == fields && fields[..0] == [];
    } else {
      hide StartsWithRun, WithoutRuns;
      var head, rest := fields[0], fields[1..];
      assert fields[0..] == fields == [head] + rest;
      forall j | 0 <= j < i - 1 ensures !StartsWithRun(rest[j..], run) {
        assert rest[j..] == fields[j + 1..];
      }
      KeptBeforeFirst(rest, run, i - 1);
      NextComponent(head, rest, run);
      assert rest[i - 1..] == fields[i..];
      PrefixCons(head, rest, i);
      Regroup([head], rest[..i - 1], WithoutRuns(fields[i..], run));
    }
  }

  lemma PrefixCons(head: string, rest: seq<string>, i: nat)
    requires 0 < i <= |rest| + 1
    ensures ([head] + rest)[..i] == [head] + rest[..i - 1]
  {}

  lemma {:induction false} TooShortForRun(fields: seq<string>, run: seq<string>)
    requires |fields| < |run|
    ensures WithoutRuns(fields, run) == fields
    decreases |fields|
  {
    if fields != [] {
      TooShortForRun(fields[1..], run);
    }
  }

  /** The run at the end is found there, or earlier where it overlaps what stood before. */
  lemma FirstRunOverlaps(fields: seq<string>, run: seq<string>)
    requires run != [] && CountRuns(fields, run) == 0
    ensures var i := FirstRun(fields + run, run); i <= |fields| < i + |run|
  {
    var all := fields + run;
    var i := FirstRun(all, run);
    assert all[|fields|..] == run;
    assert StartsWithRun(all[|fields|..], run) by { assert run[..|run|] == run; }
    if i + |run| <= |fields| {
      assert fields[i..][..|run|] == all[i..][..|run|];
      RunOccursIff(fields, run);
    }
  }

  /** What removal leaves when the run at the end is taken out where it is found. */
  lemma RemovedFromEnd(fields: seq<string>, run: seq<string>)
    requires run != [] && CountRuns(fields, run) == 0
    ensures var i := FirstRun(fields + run, run);
            && i <= |fields| < i + |run|
            && WithoutRuns(fields + run, run) == fields[..i] + run[|run| - (|fields| - i)..]
  {
    hide FirstRun, WithoutRuns, CountRuns, StartsWithRun;
    FirstRunOverlaps(fields, run);
    var all := fields + run;
    var i := FirstRun(all, run);
    var rest := run[|run| - (|fields| - i)..];
    CutAtOverlap(fields, run, i);
    KeptBeforeFirst(all, run, i);
    RunComesFirst(run, rest);
    TooShortForRun(rest, run);
  }

  lemma CutAtOverlap(fields: seq<string>, run: seq<string>, i: nat)
    requires i <= |fields| < i + |run| && StartsWithRun((fields + run)[i..], run)
    ensures (fields + run)[..i] == fields[..i]
    ensures (fields + run)[i..] == run + run[|run| - (|fields| - i)..]
  {
    var tail := (fields + run)[i..];
    assert tail == tail[..|run|] + tail[|run|..];
    assert tail[|run|..] == run[|run| - (|fields| - i)..];
  }

  /** From i on, fields is the end of run. */
  predicate EndsLikeRun(fields: seq<string>, run: seq<string>, i: nat) {
    i <= |fields| <= i + |run| && fields[i..] == run[|run| - (|fields| - i)..]
  }

  /**
   * Removing a path that was not there undoes adding it exactly if, where its components are first
   * found, those of them that stood there before are also its last ones.
   */
  lemma RemoveUndoesAddIff(stored: string, path: string)
    requires Occurrences(stored, path) == 0
    ensures var fields, run := Components(stored), Components(path);
            Removed(Added(stored, path), path) == stored <==>
            stored == "" || EndsLikeRun(fields, run, FirstRun(fields + run, run))
  {
    hide Components, WithoutRuns, CountRuns, StartsWithRun, FirstRun;
    var fields, run := Components(stored), Components(path);
    if stored == "" {
      RunComesFirst(run, []);
      assert run + [] == run;
      NoFieldsLeft(run);
    } else {
      AddedComponents(stored, path);
      RemovedFromEnd(fields, run);
      var i := FirstRun(fields + run, run);
      var left := fields[..i] + run[|run| - (|fields| - i)..];
      LeftIsClean(stored, path, left, i);
      JoinedComponents(left);
      JoinBack(stored);
      assert fields == fields[..i] + fields[i..];
      assert left[i..] == run[|run| - (|fields| - i)..];
    }
  }

  lemma NoFieldsLeft(run: seq<string>)
    requires run != []
    ensures Join(WithoutRuns([], run), ";") == ""
  {}

  lemma LeftIsClean(stored: string, path: string, left: seq<string>, i: nat)
    requires var fields, run := Components(stored), Components(path);
             i <= |fields| < i + |run| && left == fields[..i] + run[|run| - (|fields| - i)..]
    ensures left != [] && forall f :: f in left ==> ';' !in f
  {
    SplitFieldsAreClean(stored, ';');
    SplitFieldsAreClean(path, ';');
    hide Split;
    var fields, run := Components(stored), Components(path);
    assert forall f :: f in fields ==> ';' !in f;
    assert forall f :: f in run ==> ';' !in f;
  }

  /** For one directory that is always so. */
  lemma RemoveUndoesAdd(stored: string, path: string)
    requires IsComponent(path) && path !in Components(stored)
    ensures Removed(Added(stored, path), path) == stored
  {
    RemovedIsFilter(stored, path);
    SplitOfCleanField(path, ';');
    RemoveUndoesAddIff(stored, path);
    FirstRunOverlaps(Components(stored), [path]);
    hide Split, FirstRun;
  }

  /** Adding x;y;x to x;y and removing it again leaves y;x. */
  lemma RemoveCanReorder()
    ensures Occurrences("x;y", "x;y;x") == 0
    ensures Removed(Added("x;y", "x;y;x"), "x;y;x") == "y;x"
  {
    var fields, run := ["x", "y"], ["x", "y", "x"];
    ReorderTexts();
    CountsNone(fields, run);
    AddedComponents("x;y", "x;y;x");
    FirstAtFront(fields + run, run);
    hide Components, WithoutRuns, CountRuns, FirstRun, Join;
    RemovedFromEnd(fields, run);
    assert fields[..0] + run[1..] == ["y", "x"];
  }

  lemma ReorderTexts()
    ensures Components("x;y") == ["x", "y"] && Components("x;y;x") == ["x", "y", "x"]
    ensures Join(["y", "x"], ";") == "y;x"
  {
    hide Components;
    JoinedComponents(["x", "y"]);
    JoinedComponents(["x", "y", "x"]);
    assert Join(["x", "y"], ";") == "x;y" && Join(["x", "y", "x"], ";") == "x;y;x";
  }

  lemma FirstAtFront(fields: seq<string>, run: seq<string>)
    requires run == ["x", "y", "x"] && fields == ["x", "y"] + run
    ensures FirstRun(fields, run) == 0
  {
    assert fields[..3] == run;
  }

  lemma CountsNone(fields: seq<string>, run: seq<string>)
    requires |fields| < |run|
    ensures CountRuns(fields, run) == 0
  {
    RunOccursIff(fields, run);
  }
}
