/** The .env side of a template update: parsing, listing new keys and merging while
    keeping every value the user set. */
module EnvMerge {
  import opened Text

  type Env = map<string, string>

  /** KEY of a "KEY=value" line; "" for comments, blanks and lines without a key. */
  function EnvKey(line: string): (k: string) {
    var t := TrimSpace(line);
    if t == [] || t[0] == '#' then ""
    else
      var i := IndexOf(t, '=');
      if 0 < i < |t| then TrimSpace(t[..i]) else ""
  }

  function EnvValue(line: string): string {
    var t := TrimSpace(line);
    var i := IndexOf(t, '=');
    if i < |t| then t[i + 1..] else t
  }

  /** What a list of lines defines; the last definition of a key wins. */
  function ParseLines(ls: seq<string>): (m: Env) {
    if ls == [] then map[]
    else
      var m := ParseLines(ls[..|ls| - 1]);
      var line := ls[|ls| - 1];
      if EnvKey(line) == "" then m else m[EnvKey(line) := EnvValue(line)]
  }

  function ParseEnv(s: string): Env { ParseLines(Split(s)) }

  predicate Defines(ls: seq<string>, k: string) {
    exists i :: 0 <= i < |ls| && EnvKey(ls[i]) == k
  }

  method ParseEnvMap(s: string) returns (m: Env)
    ensures m == ParseEnv(s)
  {
    hide EnvKey;
    hide EnvValue;
    hide Split;
    m := map[];
    var lines := Split(s);
    for i := 0 to |lines|
      invariant m == ParseLines(lines[..i])
    {
      var line := lines[i];
      assert lines[..i + 1][..i] == lines[..i];
      var k := EnvKey(line);
      if k == "" {
        continue;
      }
      m := m[k := EnvValue(line)];
    }
    assert lines[..|lines|] == lines;
  }

  /** The first line that defines k, or the number of lines. */
  function FirstDefining(ls: seq<string>, k: string): (i: nat)
    ensures i <= |ls| && (i < |ls| ==> EnvKey(ls[i]) == k)
    ensures forall j :: 0 <= j < i ==> EnvKey(ls[j]) != k
  {
    if ls == [] || EnvKey(ls[0]) == k then 0 else 1 + FirstDefining(ls[1..], k)
  }

  lemma FirstDefiningIs(ls: seq<string>, i: nat)
    requires i < |ls| && !Defines(ls[..i], EnvKey(ls[i]))
    ensures FirstDefining(ls, EnvKey(ls[i])) == i
  {
    hide EnvKey;
    assert forall j :: 0 <= j < i ==> ls[..i][j] == ls[j];
  }

  /** Exactly the keys the template defines and the project lacks, each once, in the order
      in which the template first defines them. */
  method NewEnvKeys(existing: string, template: string) returns (keys: seq<string>)
    ensures forall k :: k in keys <==> k in ParseEnv(template) && k !in ParseEnv(existing)
    ensures forall i, j :: 0 <= i < j < |keys| ==>
      FirstDefining(Split(template), keys[i]) < FirstDefining(Split(template), keys[j])
  {
    hide EnvKey;
    hide Split;
    hide ParseLines;
    hide Defines;
    hide FirstDefining;
    var have := ParseEnvMap(existing);
    keys := [];
    var seen: set<string> := {};
    var lines := Split(template);
    DefinesNone();
    assert lines[..0] == [];
    for i := 0 to |lines|
      invariant forall k :: k in seen <==> k != "" && Defines(lines[..i], k)
      invariant forall k :: k in keys <==> k in seen && k !in have
      invariant forall a :: 0 <= a < |keys| ==> FirstDefining(lines, keys[a]) < i
      invariant forall a, b :: 0 <= a < b < |keys| ==> FirstDefining(lines, keys[a]) < FirstDefining(lines, keys[b])
    {
      assert lines[..i + 1] == lines[..i] + [lines[i]];
      DefinesSnoc(lines[..i], lines[i]);
      var k := EnvKey(lines[i]);
      if k == "" || k in seen {
        continue;
      }
      FirstDefiningIs(lines, i);
      seen := seen + {k};
      if k !in have {
        keys := keys + [k];
      }
    }
    assert lines[..|lines|] == lines;
    ParsedKeys(lines);
  }

  lemma DefinesAt(ls: seq<string>, i: nat)
    requires i < |ls|
    ensures Defines(ls, EnvKey(ls[i]))
  {
  }

  lemma DefinesNone()
    ensures forall k :: !Defines([], k)
  {
  }

  lemma DefinesSnoc(ls: seq<string>, line: string)
    ensures forall k :: Defines(ls + [line], k) <==> Defines(ls, k) || k == EnvKey(line)
  {
    hide EnvKey;
    forall k ensures Defines(ls + [line], k) <==> Defines(ls, k) || k == EnvKey(line) {
      assert (ls + [line])[|ls|] == line;
      if Defines(ls, k) {
        var i :| 0 <= i < |ls| && EnvKey(ls[i]) == k;
        assert EnvKey((ls + [line])[i]) == k;
      }
    }
  }

  lemma {:induction false} ParsedKeys(ls: seq<string>)
    ensures forall k :: k in ParseLines(ls) <==> k != "" && Defines(ls, k)
  {
    hide EnvKey;
    if ls != [] {
      ParsedKeys(ls[..|ls| - 1]);
      DefinesSnoc(ls[..|ls| - 1], ls[|ls| - 1]);
      assert ls[..|ls| - 1] + [ls[|ls| - 1]] == ls;
    }
  }

  // ----- merging -----

  const MARKER := "# --- preserved from your previous .env ---"

  /** A template line, with the user's value when the user has one. */
  function MergeLine(have: Env, line: string): string {
    var k := EnvKey(line);
    if k != "" && k in have then k + "=" + have[k] else line
  }

  function MergeLines(have: Env, ls: seq<string>): (r: seq<string>)
    ensures |r| == |ls|
  {
    if ls == [] then [] else MergeLines(have, ls[..|ls| - 1]) + [MergeLine(have, ls[|ls| - 1])]
  }

  /** Existing lines whose key the template no longer defines. */
  function Extras(template: seq<string>, existing: seq<string>): (r: seq<string>) {
    if existing == [] then []
    else
      var r := Extras(template, existing[..|existing| - 1]);
      var line := existing[|existing| - 1];
      if EnvKey(line) != "" && !Defines(template, EnvKey(line)) then r + [line] else r
  }

  function MergedLines(existing: seq<string>, template: seq<string>): seq<string> {
    var extra := Extras(template, existing);
    MergeLines(ParseLines(existing), template) + (if extra == [] then [] else ["", MARKER] + extra)
  }

  function Merge(existing: string, template: string): string {
    Join(MergedLines(Split(existing), Split(TrimRightNewlines(template)))) + [NL]
  }

  method MergeEnvKeepingValues(existing: string, template: string) returns (merged: string)
    ensures merged == Merge(existing, template)
  {
    hide EnvKey;
    hide Split;
    hide ParseLines;
    hide Defines;
    hide Join;
    hide TrimRightNewlines;
    var have := ParseEnvMap(existing);
    var used: set<string> := {};
    var out: seq<string> := [];
    var lines := Split(TrimRightNewlines(template));
    DefinesNone();
    assert lines[..0] == [];
    for i := 0 to |lines|
      invariant out == MergeLines(have, lines[..i])
      invariant forall k :: k in used <==> k != "" && k in have && Defines(lines[..i], k)
    {
      var line := lines[i];
      assert lines[..i + 1] == lines[..i] + [line];
      DefinesSnoc(lines[..i], line);
      var k := EnvKey(line);
      if k != "" && k in have {
        out := out + [k + "=" + have[k]];
        used := used + {k};
      } else {
        out := out + [line];
      }
    }
    assert lines[..|lines|] == lines;
    var extra: seq<string> := [];
    var before := Split(existing);
    ParsedKeys(before);
    for i := 0 to |before|
      invariant extra == Extras(lines, before[..i])
    {
      var line := before[i];
      assert before[..i + 1] == before[..i] + [line];
      var k := EnvKey(line);
      DefinesAt(before, i);
      if k != "" && k !in used {
        extra := extra + [line];
      }
    }
    assert before[..|before|] == before;
    if |extra| > 0 {
      out := out + ["", MARKER] + extra;
    }
    assert out == MergedLines(before, lines);
    merged := Join(out) + [NL];
  }

  // ----- what a line means, and that a rewritten line means the same -----

  predicate KeyText(k: string) {
    k != "" && Trimmed(k) && '=' !in k && k[0] != '#' && OneLine(k)
  }

  predicate ValueText(v: string) { OneLine(v) && (v == "" || !IsSpace(v[|v| - 1])) }

  predicate WellFormed(m: Env) { forall k :: k in m ==> KeyText(k) && ValueText(m[k]) }

  lemma LineShape(line: string)
    requires OneLine(line) && EnvKey(line) != ""
    ensures KeyText(EnvKey(line)) && ValueText(EnvValue(line))
  {
    hide IsSpace;
    hide TrimSpace;
    hide KeyText;
    hide ValueText;
    hide IndexOf;
    var t := TrimSpace(line);
    var i := IndexOf(t, '=');
    TrimSpaceLacks(line, NL);
    TrimSpaceIsTrimmed(line);
    KeyShape(t, i);
    ValueShape(t, i);
  }

  lemma KeyShape(t: string, i: nat)
    requires 0 < i < |t| && OneLine(t) && !IsSpace(t[0]) && t[0] != '#' && '=' !in t[..i]
    ensures KeyText(TrimSpace(t[..i]))
  {
    hide IsSpace;
    hide TrimSpace;
    assert t[..i][0] == t[0];
    assert OneLine(t[..i]);
    TrimSpaceLacks(t[..i], NL);
    TrimSpaceLacks(t[..i], '=');
    TrimSpaceIsTrimmed(t[..i]);
    HeadKept(t[..i]);
  }

  lemma ValueShape(t: string, i: nat)
    requires i < |t| && OneLine(t) && !IsSpace(t[|t| - 1])
    ensures ValueText(t[i + 1..])
  {
    hide IsSpace;
    var v := t[i + 1..];
    assert v != "" ==> v[|v| - 1] == t[|t| - 1];
  }

  lemma HeadKept(s: string)
    requires s != [] && !IsSpace(s[0])
    ensures TrimSpace(s) != [] && TrimSpace(s)[0] == s[0]
  {
    hide IsSpace;
    TrimRightFacts(s);
    assert s[0..] == s;
  }

  lemma RewrittenLine(k: string, v: string)
    requires KeyText(k) && ValueText(v)
    ensures EnvKey(k + "=" + v) == k && EnvValue(k + "=" + v) == v && OneLine(k + "=" + v)
  {
    hide IsSpace;
    hide TrimSpace;
    hide IndexOf;
    var line := k + "=" + v;
    assert !IsSpace('=') by { EqualsNotSpace(); }
    assert Trimmed(line);
    TrimSpaceFixes(line);
    TrimSpaceFixes(k);
    IndexOfAt(k, '=', v);
    assert line[..|k|] == k && line[|k| + 1..] == v;
  }

  /** White space around a line, a carriage return included, changes neither key nor value. */
  lemma BlanksAround(pre: string, line: string, post: string)
    requires Blank(pre) && Blank(post)
    ensures EnvKey(pre + line + post) == EnvKey(line) && EnvValue(pre + line + post) == EnvValue(line)
  {
    hide IndexOf;
    TrimPrefix(pre, line);
    TrimSuffix(pre + line, post);
    hide TrimSpace;
  }

  /** What any line says: with white space around it and before its '=', the key and value;
      nothing for a comment, a blank line, or one without '='. */
  lemma LineSays(pre: string, k: string, gap: string, v: string, post: string)
    requires KeyText(k) && ValueText(v) && Blank(pre) && Blank(gap) && Blank(post)
    ensures var line := pre + (k + gap + "=" + v) + post; EnvKey(line) == k && EnvValue(line) == v
  {
    var line := k + gap + "=" + v;
    BlanksAround(pre, line, post);
    assert !IsSpace('=') by { EqualsNotSpace(); }
    assert '=' !in gap;
    assert Trimmed(line);
    TrimSpaceFixes(line);
    TrimSuffix(k, gap);
    TrimSpaceFixes(k);
    IndexOfAt(k + gap, '=', v);
    hide TrimSpace;
    hide IndexOf;
    assert line == k + gap + ['='] + v;
    assert line[..|k + gap|] == k + gap && line[|k + gap| + 1..] == v;
    assert line[0] == k[0];
  }

  lemma LineSaysNothing(pre: string, line: string)
    requires Blank(pre) && (line == "" || line[0] == '#' || '=' !in line)
    ensures EnvKey(pre + line) == ""
  {
    BlanksAround(pre, line, "");
    assert pre + line + "" == pre + line;
    if line == "" {
      TrimSpaceFixes("");
    } else if line[0] == '#' {
      CommentHasNoKey(line);
    } else {
      TrimSpaceLacks(line, '=');
      IndexOfNone(TrimSpace(line), '=');
    }
  }

  lemma EqualsNotSpace()
    ensures !IsSpace('=')
  {
  }

  lemma CommentHasNoKey(line: string)
    requires line != "" && line[0] == '#'
    ensures EnvKey(line) == ""
  {
    hide TrimSpace;
    assert !IsSpace('#');
    HeadKept(line);
  }

  lemma MarkerHasNoKey()
    ensures EnvKey("") == "" && EnvKey(MARKER) == ""
  {
    hide IsSpace;
    hide IndexOf;
    CommentHasNoKey(MARKER);
    TrimSpaceFixes("");
  }

  lemma MarkerIsOneLine()
    ensures OneLine(MARKER)
  {
  }

  lemma {:induction false} ParsedWellFormed(ls: seq<string>)
    requires Lines(ls)
    ensures WellFormed(ParseLines(ls))
  {
    hide EnvKey;
    hide EnvValue;
    hide KeyText;
    hide ValueText;
    if ls != [] {
      ParsedWellFormed(ls[..|ls| - 1]);
      if EnvKey(ls[|ls| - 1]) != "" { LineShape(ls[|ls| - 1]); }
    }
  }

  lemma {:induction false} ParseConcat(a: seq<string>, b: seq<string>)
    ensures ParseLines(a + b) == ParseLines(a) + ParseLines(b)
  {
    hide EnvKey;
    hide EnvValue;
    if b == [] {
      assert a + b == a;
    } else {
      assert (a + b)[..|a + b| - 1] == a + b[..|b| - 1];
      ParseConcat(a, b[..|b| - 1]);
    }
  }

  // ----- the parts of a merged file -----

  lemma MergeLineMeans(have: Env, line: string)
    requires WellFormed(have) && OneLine(line)
    ensures var r := MergeLine(have, line);
            EnvKey(r) == EnvKey(line) && OneLine(r)
            && EnvValue(r) == if EnvKey(line) != "" && EnvKey(line) in have then have[EnvKey(line)] else EnvValue(line)
  {
    hide EnvKey;
    hide EnvValue;
    hide KeyText;
    hide ValueText;
    var k := EnvKey(line);
    if k != "" && k in have { RewrittenLine(k, have[k]); }
  }

  lemma {:induction false} MergeLinesKeys(have: Env, ls: seq<string>)
    requires WellFormed(have) && Lines(ls)
    ensures var r := MergeLines(have, ls);
            Lines(r) && (forall i :: 0 <= i < |ls| ==> EnvKey(r[i]) == EnvKey(ls[i]))
  {
    hide EnvKey;
    hide EnvValue;
    hide WellFormed;
    hide MergeLine;
    hide OneLine;
    if ls != [] {
      MergeLinesKeys(have, ls[..|ls| - 1]);
      MergeLineMeans(have, ls[|ls| - 1]);
    }
  }

  lemma OverrideSnoc(m: Env, have: Env, key: string, value: string)
    ensures (map k | k in m[key := value] :: if k in have then have[k] else m[key := value][k])
         == (map k | k in m :: if k in have then have[k] else m[k])[key := if key in have then have[key] else value]
  {
  }

  /** Merged template lines define the template's keys, with the user's values. */
  lemma {:induction false} MergeLinesMeans(have: Env, ls: seq<string>)
    requires WellFormed(have) && Lines(ls)
    ensures ParseLines(MergeLines(have, ls))
         == map k | k in ParseLines(ls) :: if k in have then have[k] else ParseLines(ls)[k]
  {
    hide EnvKey;
    hide EnvValue;
    hide WellFormed;
    hide MergeLine;
    hide OneLine;
    hide ParseLines;
    if ls == [] {
      NoLines();
    } else {
      var init, last := ls[..|ls| - 1], ls[|ls| - 1];
      assert ls == init + [last];
      MergeLinesMeans(have, init);
      MergeLineMeans(have, last);
      ParseSnoc(init, last);
      ParseSnoc(MergeLines(have, init), MergeLine(have, last));
      if EnvKey(last) != "" {
        OverrideSnoc(ParseLines(init), have, EnvKey(last), EnvValue(last));
      }
    }
  }

  /** The preserved lines define exactly the keys the template dropped. */
  lemma {:induction false} ExtrasMean(template: seq<string>, existing: seq<string>)
    ensures ParseLines(Extras(template, existing))
         == map k | k in ParseLines(existing) && !Defines(template, k) :: ParseLines(existing)[k]
    ensures Lines(existing) ==> Lines(Extras(template, existing))
  {
    hide EnvKey;
    hide EnvValue;
    hide Defines;
    hide OneLine;
    hide ParseLines;
    if existing == [] {
      NoLines();
    } else {
      var init, line := existing[..|existing| - 1], existing[|existing| - 1];
      assert existing == init + [line];
      ExtrasMean(template, init);
      ParseSnoc(init, line);
      ParseSnoc(Extras(template, init), line);
    }
  }

  lemma ParseSnoc(ls: seq<string>, line: string)
    ensures ParseLines(ls + [line])
         == if EnvKey(line) == "" then ParseLines(ls) else ParseLines(ls)[EnvKey(line) := EnvValue(line)]
  {
    hide EnvKey;
    hide EnvValue;
    assert (ls + [line])[..|ls|] == ls;
  }

  lemma MergedLinesMean(existing: seq<string>, template: seq<string>)
    requires Lines(existing) && Lines(template)
    ensures Lines(MergedLines(existing, template))
    ensures ParseLines(MergedLines(existing, template)) == ParseLines(template) + ParseLines(existing)
  {
    hide EnvKey;
    hide EnvValue;
    hide WellFormed;
    hide Defines;
    hide OneLine;
    hide ParseLines;
    hide MergeLines;
    hide Extras;
    var have := ParseLines(existing);
    var top := MergeLines(have, template);
    var extra := Extras(template, existing);
    ParsedWellFormed(existing);
    MergeLinesMeans(have, template);
    MergeLinesKeys(have, template);
    ExtrasMean(template, existing);
    ParsedKeys(template);
    ParsedKeys(existing);
    MarkerHasNoKey();
    NoKeyLines("", MARKER);
    NoLines();
    ParseConcat(top, ["", MARKER] + extra);
    ParseConcat(["", MARKER], extra);
    ParseConcat(top, []);
    assert top + [] == top;
    assert ["", MARKER] + extra != [];
    MarkerIsOneLine();
    assert OneLine("") by { EmptyOneLine(); }
    if extra == [] {
      assert ParseLines(template) + have == ParseLines(top);
    } else {
      assert MergedLines(existing, template) == top + (["", MARKER] + extra);
      assert ParseLines(template) + have == ParseLines(top) + ParseLines(extra);
    }
  }

  lemma EmptyOneLine()
    ensures OneLine("")
  {
  }

  lemma NoLines()
    ensures ParseLines([]) == map[]
  {
  }

  lemma NoKeyLines(a: string, b: string)
    requires EnvKey(a) == "" && EnvKey(b) == ""
    ensures ParseLines([a, b]) == map[] && ParseLines([a]) == map[]
  {
    hide EnvKey;
    assert [a][..0] == [];
    assert ParseLines([a]) == map[];
    assert [a, b][..1] == [a];
    assert ParseLines([a, b]) == ParseLines([a]);
  }

  lemma {:induction false} EmptyLinesMeanNothing(n: nat)
    ensures ParseLines(seq(n, _ => "")) == map[]
  {
    hide EnvKey;
    if n > 0 {
      MarkerHasNoKey();
      EmptyLinesMeanNothing(n - 1);
      assert seq(n, _ => "")[..n - 1] == seq(n - 1, _ => "");
    }
  }

  lemma TrimmedTemplate(t: string)
    ensures ParseLines(Split(TrimRightNewlines(t))) == ParseEnv(t)
  {
    hide ParseLines;
    var n := SplitTrimmed(t);
    ParseConcat(Split(TrimRightNewlines(t)), seq(n, _ => ""));
    EmptyLinesMeanNothing(n);
  }

  /** The lines of a merged file are the merged lines and a final empty one. */
  lemma MergeSplits(existing: string, template: string)
    ensures Split(Merge(existing, template))
         == MergedLines(Split(existing), Split(TrimRightNewlines(template))) + [""]
  {
    hide Split;
    hide Join;
    hide MergedLines;
    var e, t := Split(existing), Split(TrimRightNewlines(template));
    var ls := MergedLines(e, t);
    MergedLinesMean(e, t);
    MergedNonempty(e, t);
    SplitAt(Join(ls), "");
    assert Join(ls) + [NL] + "" == Merge(existing, template);
    SplitJoin(ls);
    SplitLine("");
  }

  lemma MergedNonempty(existing: seq<string>, template: seq<string>)
    requires |template| > 0
    ensures |MergedLines(existing, template)| > 0
  {
  }

  /** The meaning of a template update, for all texts: the merged file defines what the
      template defines, overridden by everything the user had. */
  lemma MergeMeansOverride(existing: string, template: string)
    ensures ParseEnv(Merge(existing, template)) == ParseEnv(template) + ParseEnv(existing)
  {
    hide Merge;
    hide ParseLines;
    hide MergedLines;
    hide Split;
    var e, t := Split(existing), Split(TrimRightNewlines(template));
    MergeSplits(existing, template);
    MergedLinesMean(e, t);
    TrimmedTemplate(template);
    MarkerHasNoKey();
    NoKeyLines("", MARKER);
    ParseConcat(MergedLines(e, t), [""]);
  }

  /** After a merge the template introduces nothing more. */
  lemma NothingNewAfterMerge(existing: string, template: string, k: string)
    ensures k in ParseEnv(template) ==> k in ParseEnv(Merge(existing, template))
    ensures k in ParseEnv(existing) ==>
      k in ParseEnv(Merge(existing, template)) && ParseEnv(Merge(existing, template))[k] == ParseEnv(existing)[k]
  {
    hide Merge;
    hide ParseEnv;
    MergeMeansOverride(existing, template);
  }

  // ----- merging again -----

  lemma {:induction false} ExtrasConcat(template: seq<string>, a: seq<string>, b: seq<string>)
    ensures Extras(template, a + b) == Extras(template, a) + Extras(template, b)
  {
    hide EnvKey;
    hide Defines;
    if b == [] {
      assert a + b == a;
    } else {
      assert (a + b)[..|a + b| - 1] == a + b[..|b| - 1];
      ExtrasConcat(template, a, b[..|b| - 1]);
    }
  }

  /** Lines without a key, or with a key of the template, are not carried over. */
  lemma {:induction false} ExtrasNone(template: seq<string>, ls: seq<string>)
    requires forall i :: 0 <= i < |ls| ==> EnvKey(ls[i]) == "" || Defines(template, EnvKey(ls[i]))
    ensures Extras(template, ls) == []
  {
    hide EnvKey;
    hide Defines;
    if ls != [] { ExtrasNone(template, ls[..|ls| - 1]); }
  }

  lemma {:induction false} ExtrasIdempotent(template: seq<string>, ls: seq<string>)
    ensures Extras(template, Extras(template, ls)) == Extras(template, ls)
  {
    hide EnvKey;
    hide Defines;
    if ls != [] {
      ExtrasIdempotent(template, ls[..|ls| - 1]);
      var r := Extras(template, ls[..|ls| - 1]);
      assert (r + [ls[|ls| - 1]])[..|r|] == r;
    }
  }

  lemma MergedKeysDefined(template: seq<string>, top: seq<string>)
    requires |top| == |template| && forall i :: 0 <= i < |template| ==> EnvKey(top[i]) == EnvKey(template[i])
    ensures forall i :: 0 <= i < |top| ==> Defines(template, EnvKey(top[i]))
  {
    hide EnvKey;
  }

  /** A merged file carries the same extra lines into the next merge. */
  lemma ExtrasSurvive(existing: seq<string>, template: seq<string>)
    requires Lines(existing) && Lines(template)
    ensures Extras(template, MergedLines(existing, template) + [""]) == Extras(template, existing)
  {
    hide EnvKey;
    hide MergeLines;
    hide Extras;
    hide WellFormed;
    var have := ParseLines(existing);
    var top := MergeLines(have, template);
    var extra := Extras(template, existing);
    ParsedWellFormed(existing);
    MergeLinesKeys(have, template);
    MergedKeysDefined(template, top);
    MarkerHasNoKey();
    ExtrasNone(template, top);
    ExtrasNone(template, [""]);
    ExtrasNone(template, []);
    ExtrasNone(template, ["", MARKER]);
    ExtrasIdempotent(template, existing);
    var rest := if extra == [] then [] else ["", MARKER] + extra;
    ExtrasConcat(template, ["", MARKER], extra);
    ExtrasConcat(template, top, rest);
    ExtrasConcat(template, top + rest, [""]);
  }

  /** Merged lines of a second or later merge: every template value is settled. */
  lemma RemergeLines(existing: string, template: string)
    ensures var t := Split(TrimRightNewlines(template));
            var extra := Extras(t, Split(existing));
            var all := ParseEnv(template) + ParseEnv(existing);
            MergedLines(Split(Merge(existing, template)), t)
              == MergeLines(all, t) + (if extra == [] then [] else ["", MARKER] + extra)
  {
    hide Merge;
    hide ParseLines;
    hide MergeLines;
    hide Extras;
    hide Split;
    MergeSplits(existing, template);
    MergeMeansOverride(existing, template);
    ExtrasSurvive(Split(existing), Split(TrimRightNewlines(template)));
  }

  /** Re-merging reaches a textual fixed point with the second application. */
  lemma MergeStabilises(existing: string, template: string)
    ensures var once := Merge(existing, template);
            var twice := Merge(once, template);
            Merge(twice, template) == twice
  {
    hide ParseEnv;
    hide MergeLines;
    hide Extras;
    hide Split;
    hide Join;
    hide MergedLines;
    var t := Split(TrimRightNewlines(template));
    var once := Merge(existing, template);
    var twice := Merge(once, template);
    RemergeLines(existing, template);
    RemergeLines(once, template);
    MergeMeansOverride(existing, template);
    var p, e := ParseEnv(template), ParseEnv(existing);
    assert p + (p + e) == p + e;
    MergeSplits(existing, template);
    ExtrasSurvive(Split(existing), t);
    assert Split(once) == MergedLines(Split(existing), t) + [""];
  }

  /** Template lines that a first merge copies verbatim but a second would rewrite. */
  predicate Canonical(have: Env, template: seq<string>) {
    forall i :: 0 <= i < |template| && EnvKey(template[i]) != "" && EnvKey(template[i]) !in have ==>
      EnvKey(template[i]) in ParseLines(template)
      && template[i] == EnvKey(template[i]) + "=" + ParseLines(template)[EnvKey(template[i])]
  }

  lemma {:induction false} MergeLinesAt(have: Env, ls: seq<string>, i: nat)
    requires i < |ls|
    ensures MergeLines(have, ls)[i] == MergeLine(have, ls[i])
  {
    hide MergeLine;
    if i < |ls| - 1 { MergeLinesAt(have, ls[..|ls| - 1], i); }
  }

  /** The first merge is already the fixed point exactly when every template line the
      user does not override is written as KEY=value with its final value. */
  lemma FirstMergeStable(existing: string, template: string)
    ensures var t := Split(TrimRightNewlines(template));
            var once := Merge(existing, template);
            Merge(once, template) == once <==> Canonical(ParseEnv(existing), t)
  {
    hide EnvKey;
    hide ParseLines;
    hide MergeLines;
    hide Extras;
    hide Split;
    hide Join;
    hide Merge;
    var t := Split(TrimRightNewlines(template));
    var e := Split(existing);
    var once := Merge(existing, template);
    var all := ParseEnv(template) + ParseEnv(existing);
    RemergeLines(existing, template);
    var extra := Extras(t, e);
    var rest := if extra == [] then [] else ["", MARKER] + extra;
    var l1, l2 := MergeLines(ParseEnv(existing), t) + rest, MergeLines(all, t) + rest;
    MergeSplits(existing, template);
    MergeSplits(once, template);
    MergeText(existing, template);
    MergeText(once, template);
    assert Merge(once, template) == once <==> l1 == l2 by {
      if Merge(once, template) == once {
        assert l1 + [""] == l2 + [""];
        assert (l1 + [""])[..|l1|] == l1 && (l2 + [""])[..|l2|] == l2;
      }
    }
    TrimmedTemplate(template);
    SameTop(ParseEnv(existing), t, rest);
  }

  /** A template that is not stable: one setting behind a blank. It is copied as it stands
      first, and rewritten without the blank the second time. */
  lemma IndentedSettingUnstable(k: string, v: string)
    requires KeyText(k) && ValueText(v)
    ensures var template := " " + (k + "=" + v);
            var once := Merge("", template);
            Merge(once, template) != once
  {
    var line := k + "=" + v;
    var template := " " + line;
    hide Merge;
    RewrittenLine(k, v);
    TrimPrefix(" ", line);
    assert TrimSpace(template) == TrimSpace(line);
    assert template[0] == ' ' && line[0] == k[0];
    assert template[|template| - 1] == line[|line| - 1];
    assert OneLine(template);
    SplitLine(template);
    SplitLine("");
    assert TrimRightNewlines(template) == template;
    assert ParseEnv("") == map[] by { assert [""][..0] == []; }
    assert EnvKey(template) == k;
    assert [template][0] == template && template != line;
    hide EnvKey;
    hide TrimSpace;
    hide ParseEnv;
    assert [template][..0] == [];
    hide Split;
    FirstMergeStable("", template);
    NotCanonical(map[], template, line);
  }

  /** A single line that is not in the form a merge writes. */
  lemma NotCanonical(have: Env, template: string, line: string)
    requires EnvKey(template) != "" && EnvKey(template) !in have
    requires line == EnvKey(template) + "=" + EnvValue(template) && template != line
    ensures !Canonical(have, [template])
  {
    hide EnvKey;
    hide EnvValue;
    assert [template][..0] == [];
    assert ParseLines([template]) == map[EnvKey(template) := EnvValue(template)];
    assert [template][0] == template;
  }

  lemma MergeText(existing: string, template: string)
    ensures Merge(existing, template) == Join(MergedLines(Split(existing), Split(TrimRightNewlines(template)))) + [NL]
  {
  }

  lemma SameTop(have: Env, t: seq<string>, rest: seq<string>)
    ensures MergeLines(have, t) + rest == MergeLines(ParseLines(t) + have, t) + rest <==> Canonical(have, t)
  {
    hide EnvKey;
    hide MergeLines;
    hide ParseLines;
    var a, b := MergeLines(have, t), MergeLines(ParseLines(t) + have, t);
    ParsedKeys(t);
    forall i | 0 <= i < |t|
      ensures a[i] == MergeLine(have, t[i]) && b[i] == MergeLine(ParseLines(t) + have, t[i])
      ensures EnvKey(t[i]) != "" ==> EnvKey(t[i]) in ParseLines(t)
    {
      MergeLinesAt(have, t, i);
      MergeLinesAt(ParseLines(t) + have, t, i);
      DefinesAt(t, i);
    }
    if a + rest == b + rest {
      assert a == (a + rest)[..|t|] && b == (b + rest)[..|t|];
    }
    assert a == b <==> forall i :: 0 <= i < |t| ==> a[i] == b[i];
  }

  // ----- the layout of a merged file -----

  /** Which existing lines are kept behind the template: exactly those whose key the template
      does not define, in their order and as they stand. */
  lemma {:induction false} ExtrasAre(template: seq<string>, existing: seq<string>) returns (at: seq<nat>)
    ensures var extra := Extras(template, existing);
            && |at| == |extra|
            && (forall j :: 0 <= j < |at| ==> at[j] < |existing| && extra[j] == existing[at[j]])
            && (forall i, j :: 0 <= i < j < |at| ==> at[i] < at[j])
            && (forall i :: 0 <= i < |existing| ==>
                  (i in at <==> EnvKey(existing[i]) != "" && !Defines(template, EnvKey(existing[i]))))
  {
    hide EnvKey;
    hide Defines;
    at := [];
    if existing != [] {
      var n := |existing| - 1;
      var init := existing[..n];
      var before := ExtrasAre(template, init);
      assert forall i :: 0 <= i < n ==> init[i] == existing[i];
      assert n !in before;
      at := if EnvKey(existing[n]) != "" && !Defines(template, EnvKey(existing[n])) then before + [n] else before;
    }
  }

  /** Line by line: comments, blanks and new settings of the template stay where they are,
      settings the user has carry the user's value, and what the template dropped follows
      behind a marker. */
  lemma MergeLayout(existing: string, template: string)
    ensures var t := Split(TrimRightNewlines(template));
            var out := Split(Merge(existing, template));
            var extra := Extras(t, Split(existing));
            && |out| == |t| + (if extra == [] then 1 else |extra| + 3)
            && (forall i :: 0 <= i < |t| ==>
                  out[i] == if EnvKey(t[i]) != "" && EnvKey(t[i]) in ParseEnv(existing)
                            then EnvKey(t[i]) + "=" + ParseEnv(existing)[EnvKey(t[i])] else t[i])
            && out[|t|..] == (if extra == [] then [""] else ["", MARKER] + extra + [""])
  {
    hide EnvKey;
    hide Split;
    hide Merge;
    hide Extras;
    hide ParseLines;
    var t := Split(TrimRightNewlines(template));
    var out := Split(Merge(existing, template));
    MergeSplits(existing, template);
    forall i | 0 <= i < |t| ensures out[i] == MergeLine(ParseEnv(existing), t[i]) {
      MergeLinesAt(ParseEnv(existing), t, i);
    }
    hide MergeLines;
  }
}
