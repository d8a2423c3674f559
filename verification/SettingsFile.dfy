/** The settings handler's .env file: readEnvFile and the in-place updateEnvFile. */
module SettingsFile {
  import opened Text
  import opened EnvMerge

  datatype Setting = NoSetting | Setting(key: string, value: string)

  predicate IdentStart(c: char) { 'A' <= c <= 'Z' || 'a' <= c <= 'z' || c == '_' }

  predicate IdentPart(c: char) { IdentStart(c) || '0' <= c <= '9' }

  predicate IsIdent(k: string) {
    k != "" && IdentStart(k[0]) && forall i :: 0 <= i < |k| ==> IdentPart(k[i])
  }

  /** By ASCII code: the 26 capitals from 65, the 26 small letters from 97, and 95, '_'. */
  predicate LetterCode(n: int) { 65 <= n < 65 + 26 || 97 <= n < 97 + 26 || n == 95 }

  /** Names are made of letters, underscores and the ten digits from 48, and do not start
      with a digit. */
  lemma IdentExactly(k: string)
    ensures IsIdent(k) <==>
      k != "" && LetterCode(k[0] as int)
      && forall i :: 0 <= i < |k| ==> LetterCode(k[i] as int) || 48 <= k[i] as int < 48 + 10
  {
  }

  /** The line pattern ^([A-Za-z_][A-Za-z0-9_]*)=(.*)$ on the trimmed line. */
  function SettingOf(line: string): Setting {
    var t := TrimSpace(line);
    if t == [] || t[0] == '#' then NoSetting
    else
      var i := IndexOf(t, '=');
      if i < |t| && IsIdent(t[..i]) then Setting(t[..i], t[i + 1..]) else NoSetting
  }

  function ReadLines(ls: seq<string>): map<string, string> {
    if ls == [] then map[]
    else
      var m := ReadLines(ls[..|ls| - 1]);
      match SettingOf(ls[|ls| - 1])
      case NoSetting => m
      case Setting(k, v) => m[k := v]
  }

  method ReadEnvFile(data: string) returns (values: map<string, string>)
    ensures values == ReadLines(Split(data))
  {
    hide SettingOf;
    hide Split;
    values := map[];
    var lines := Split(data);
    for i := 0 to |lines|
      invariant values == ReadLines(lines[..i])
    {
      assert lines[..i + 1][..i] == lines[..i];
      match SettingOf(lines[i]) {
        case NoSetting =>
        case Setting(k, v) => values := values[k := v];
      }
    }
    assert lines[..|lines|] == lines;
  }

  function UpdateLine(updates: map<string, string>, line: string): string {
    match SettingOf(line)
    case NoSetting => line
    case Setting(k, _) => if k in updates then k + "=" + updates[k] else line
  }

  function UpdateLines(updates: map<string, string>, ls: seq<string>): (r: seq<string>)
    ensures |r| == |ls|
  {
    if ls == [] then [] else UpdateLines(updates, ls[..|ls| - 1]) + [UpdateLine(updates, ls[|ls| - 1])]
  }

  lemma {:induction false} UpdateLinesAt(updates: map<string, string>, ls: seq<string>, i: nat)
    requires i < |ls|
    ensures UpdateLines(updates, ls)[i] == UpdateLine(updates, ls[i])
  {
    hide UpdateLine;
    if i < |ls| - 1 { UpdateLinesAt(updates, ls[..|ls| - 1], i); }
  }

  /** Lines for the keys of `order`, in that order. */
  function NewLines(updates: map<string, string>, order: seq<string>): (r: seq<string>)
    requires forall i :: 0 <= i < |order| ==> order[i] in updates
    ensures |r| == |order|
  {
    seq(|order|, i requires 0 <= i < |order| => order[i] + "=" + updates[order[i]])
  }

  /** The updates a file can hold: identifier keys, one-line values that do not end in
      white space. */
  predicate Storable(updates: map<string, string>) {
    forall k :: k in updates ==> IsIdent(k) && ValueText(updates[k])
  }

  /** updateEnvFile, for any order in which the update map is walked: every line that
      does not set an updated key is kept where it is, and reading the file back gives
      the old settings overridden by the updates exactly when the updates are storable. */
  method UpdateEnvFile(data: string, updates: map<string, string>)
    returns (result: string, lines: seq<string>, order: seq<string>)
    ensures result == Join(lines)
    ensures forall i :: 0 <= i < |order| ==> order[i] in updates
    ensures lines == UpdateLines(updates, Split(data)) + NewLines(updates, order)
    ensures forall i :: 0 <= i < |Split(data)| && (SettingOf(Split(data)[i]).NoSetting? || SettingOf(Split(data)[i]).key !in updates)
              ==> lines[i] == Split(data)[i]
    ensures forall i :: 0 <= i < |Split(data)| && SettingOf(Split(data)[i]).Setting? && SettingOf(Split(data)[i]).key in updates
              ==> lines[i] == SettingOf(Split(data)[i]).key + "=" + updates[SettingOf(Split(data)[i]).key]
    ensures forall k :: k in order <==> k in updates && k !in ReadLines(Split(data))
    ensures forall i, j :: 0 <= i < j < |order| ==> order[i] != order[j]
    ensures |lines| == |Split(data)| + |order|
      && forall j :: 0 <= j < |order| ==> lines[|Split(data)| + j] == order[j] + "=" + updates[order[j]]
    ensures ReadLines(Split(result)) == ReadLines(Split(data)) + updates <==> Storable(updates)
  {
    hide SettingOf;
    hide Split;
    hide ReadLines;
    hide Join;
    hide Storable;
    hide UpdateLines;
    var before := Split(data);
    var touched;
    lines, touched := TouchLines(before, updates);
    lines, order := AppendRest(lines, updates, touched);
    result := Join(lines);
    UpdateReadsBack(before, updates, order);
    forall i | 0 <= i < |before| && (SettingOf(before[i]).NoSetting? || SettingOf(before[i]).key !in updates)
      ensures lines[i] == before[i]
    {
      UpdateLinesAt(updates, before, i);
    }
    forall i | 0 <= i < |before| && SettingOf(before[i]).Setting? && SettingOf(before[i]).key in updates
      ensures lines[i] == SettingOf(before[i]).key + "=" + updates[SettingOf(before[i]).key]
    {
      UpdateLinesAt(updates, before, i);
    }
  }

  /** The first loop: rewrites lines in place and notes the keys it found. */
  method TouchLines(before: seq<string>, updates: map<string, string>) returns (lines: seq<string>, touched: set<string>)
    ensures lines == UpdateLines(updates, before)
    ensures forall k :: k in touched <==> k in updates && k in ReadLines(before)
  {
    hide SettingOf;
    hide ReadLines;
    lines, touched := before, {};
    ReadNone();
    assert before[..0] == [];
    for i := 0 to |before|
      invariant |lines| == |before|
      invariant lines[..i] == UpdateLines(updates, before[..i])
      invariant forall j :: i <= j < |before| ==> lines[j] == before[j]
      invariant forall k :: k in touched <==> k in updates && k in ReadLines(before[..i])
    {
      assert before[..i + 1] == before[..i] + [before[i]];
      ReadSnoc(before[..i], before[i]);
      ghost var was := lines;
      match SettingOf(lines[i]) {
        case NoSetting =>
        case Setting(key, _) =>
          if key in updates {
            lines := lines[i := key + "=" + updates[key]];
            touched := touched + {key};
          }
      }
      assert lines[..i] == was[..i];
      assert lines[..i + 1] == lines[..i] + [lines[i]];
      assert before[..i + 1][..i] == before[..i];
    }
    assert before[..|before|] == before && lines[..|before|] == lines;
  }

  /** The second loop: appends the keys that were not found, in any order. */
  method AppendRest(base: seq<string>, updates: map<string, string>, touched: set<string>)
    returns (lines: seq<string>, order: seq<string>)
    ensures forall i :: 0 <= i < |order| ==> order[i] in updates
    ensures lines == base + NewLines(updates, order)
    ensures forall k :: k in updates ==> (k in order <==> k !in touched)
    ensures forall i, j :: 0 <= i < j < |order| ==> order[i] != order[j]
  {
    var remaining := updates.Keys;
    lines, order := base, [];
    while remaining != {}
      invariant remaining <= updates.Keys
      invariant forall i :: 0 <= i < |order| ==> order[i] in updates
      invariant forall k :: k in updates ==> (k in order <==> k !in remaining && k !in touched)
      invariant forall i, j :: 0 <= i < j < |order| ==> order[i] != order[j]
      invariant lines == base + NewLines(updates, order)
      decreases remaining
    {
      var key :| key in remaining;
      remaining := remaining - {key};
      if key !in touched {
        lines := lines + [key + "=" + updates[key]];
        order := order + [key];
        assert NewLines(updates, order) == NewLines(updates, order[..|order| - 1]) + [key + "=" + updates[key]];
      }
    }
  }

  lemma ReadNone()
    ensures ReadLines([]) == map[]
  {
  }

  lemma ReadSnoc(ls: seq<string>, line: string)
    ensures ReadLines(ls + [line]) == match SettingOf(line)
                                      case NoSetting => ReadLines(ls)
                                      case Setting(k, v) => ReadLines(ls)[k := v]
  {
    hide SettingOf;
    assert (ls + [line])[..|ls|] == ls;
  }

  /** A written setting reads back as itself. */
  lemma WrittenSetting(k: string, v: string)
    requires IsIdent(k) && ValueText(v)
    ensures SettingOf(k + "=" + v) == Setting(k, v) && OneLine(k + "=" + v)
  {
    hide TrimSpace;
    hide IndexOf;
    var line := k + "=" + v;
    assert '=' !in k && k[0] != '#' && OneLine(k);
    assert Trimmed(line) by {
      assert !IsSpace(k[0]) && !IsSpace('=');
    }
    TrimSpaceFixes(line);
    IndexOfAt(k, '=', v);
    assert line[..|k|] == k && line[|k| + 1..] == v;
  }

  /** White space around a line, a carriage return included, changes nothing. */
  lemma BlanksAroundSetting(pre: string, line: string, post: string)
    requires Blank(pre) && Blank(post)
    ensures SettingOf(pre + line + post) == SettingOf(line)
  {
    hide IndexOf;
    TrimPrefix(pre, line);
    TrimSuffix(pre + line, post);
    hide TrimSpace;
  }

  /** Everything that can be read is storable. */
  lemma SettingShape(line: string)
    requires OneLine(line) && SettingOf(line).Setting?
    ensures IsIdent(SettingOf(line).key) && ValueText(SettingOf(line).value)
  {
    hide IsSpace;
    hide TrimLeftSpace;
    hide TrimRightSpace;
    hide IsIdent;
    var t := TrimSpace(line);
    TrimSpaceLacks(line, NL);
    TrimSpaceIsTrimmed(line);
    ValueShape(t, IndexOf(t, '='));
  }

  lemma {:induction false} ReadIsStorable(ls: seq<string>)
    requires Lines(ls)
    ensures Storable(ReadLines(ls))
  {
    hide SettingOf;
    hide IsIdent;
    hide ValueText;
    if ls != [] {
      ReadIsStorable(ls[..|ls| - 1]);
      if SettingOf(ls[|ls| - 1]).Setting? { SettingShape(ls[|ls| - 1]); }
    }
  }

  lemma UpdateLineMeans(updates: map<string, string>, line: string)
    requires Storable(updates) && OneLine(line)
    ensures OneLine(UpdateLine(updates, line))
    ensures SettingOf(UpdateLine(updates, line)) ==
      match SettingOf(line)
      case NoSetting => NoSetting
      case Setting(k, v) => Setting(k, if k in updates then updates[k] else v)
  {
    hide SettingOf;
    hide IsIdent;
    hide ValueText;
    if SettingOf(line).Setting? && SettingOf(line).key in updates {
      WrittenSetting(SettingOf(line).key, updates[SettingOf(line).key]);
    }
  }

  lemma {:induction false} UpdateLinesMean(updates: map<string, string>, ls: seq<string>)
    requires Storable(updates) && Lines(ls)
    ensures Lines(UpdateLines(updates, ls))
    ensures ReadLines(UpdateLines(updates, ls))
         == map k | k in ReadLines(ls) :: if k in updates then updates[k] else ReadLines(ls)[k]
  {
    hide SettingOf;
    hide UpdateLine;
    hide OneLine;
    hide Storable;
    if ls != [] {
      UpdateLinesMean(updates, ls[..|ls| - 1]);
      UpdateLineMeans(updates, ls[|ls| - 1]);
      var r := UpdateLines(updates, ls);
      assert r[..|r| - 1] == UpdateLines(updates, ls[..|ls| - 1]);
      assert r[|r| - 1] == UpdateLine(updates, ls[|ls| - 1]);
    }
  }

  lemma {:induction false} NewLinesMean(updates: map<string, string>, order: seq<string>, base: seq<string>)
    requires Storable(updates) && forall i :: 0 <= i < |order| ==> order[i] in updates
    ensures Lines(NewLines(updates, order))
    ensures ReadLines(base + NewLines(updates, order))
         == ReadLines(base) + (map k | k in updates && k in order :: updates[k])
  {
    hide SettingOf;
    hide IsIdent;
    hide ValueText;
    hide OneLine;
    hide ReadLines;
    if order == [] {
      assert base + NewLines(updates, order) == base;
    } else {
      var init, key := order[..|order| - 1], order[|order| - 1];
      NewLinesMean(updates, init, base);
      WrittenSetting(key, updates[key]);
      var line := key + "=" + updates[key];
      assert NewLines(updates, order) == NewLines(updates, init) + [line];
      assert base + NewLines(updates, order) == base + NewLines(updates, init) + [line];
      ReadSnoc(base + NewLines(updates, init), line);
    }
  }

  lemma UpdateReadsBack(before: seq<string>, updates: map<string, string>, order: seq<string>)
    requires |before| > 0 && Lines(before)
    requires forall i :: 0 <= i < |order| ==> order[i] in updates
    requires forall k :: k in updates ==> (k in order <==> k !in ReadLines(before))
    ensures ReadLines(Split(Join(UpdateLines(updates, before) + NewLines(updates, order)))) == ReadLines(before) + updates
       <==> Storable(updates)
  {
    hide ReadLines;
    hide Split;
    hide Join;
    hide OneLine;
    hide Storable;
    hide UpdateLines;
    var lines := UpdateLines(updates, before) + NewLines(updates, order);
    ReadIsStorable(Split(Join(lines)));
    if Storable(updates) {
      UpdateLinesMean(updates, before);
      NewLinesMean(updates, order, UpdateLines(updates, before));
      SplitJoin(lines);
      Overridden(ReadLines(before), updates, order);
    } else {
      NotStorable(ReadLines(Split(Join(lines))), ReadLines(before), updates);
    }
  }

  lemma Overridden(before: map<string, string>, updates: map<string, string>, order: seq<string>)
    requires forall k :: k in updates ==> (k in order <==> k !in before)
    ensures (map k | k in before :: if k in updates then updates[k] else before[k])
              + (map k | k in updates && k in order :: updates[k]) == before + updates
  {
  }

  lemma NotStorable(read: map<string, string>, before: map<string, string>, updates: map<string, string>)
    requires Storable(read) && !Storable(updates)
    ensures read != before + updates
  {
    hide IsIdent;
    hide ValueText;
    var k :| k in updates && !(IsIdent(k) && ValueText(updates[k]));
    assert (before + updates)[k] == updates[k];
  }
}
