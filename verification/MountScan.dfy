/** The compose mount scanner that guards template updates: composeServiceMounts,
    persistentMountsChanged and normalizeComposeText. */
module MountScan {
  import opened Text

  /** What the scanner has gathered, and where in the file it believes to be. */
  datatype Scan = Scan(
    services: map<string, seq<string>>,
    inServices: bool,
    inVolumes: bool,
    seenVolumes: bool,
    known: bool,
    current: string)

  const START := Scan(map[], false, false, false, true, "")

  /** strings.TrimRight(s, " \t\r"). */
  function TrimRightBlanks(s: string): string {
    if s != [] && (s[|s| - 1] == ' ' || s[|s| - 1] == '\t' || s[|s| - 1] == '\r') then TrimRightBlanks(s[..|s| - 1]) else s
  }

  lemma {:induction false} TrimRightBlanksFacts(s: string)
    ensures TrimRightBlanks(s) <= s && Blank(s[|TrimRightBlanks(s)|..])
  {
    var r := TrimRightBlanks(s);
    if r != s {
      TrimRightBlanksFacts(s[..|s| - 1]);
      assert s[|r|..] == s[..|s| - 1][|r|..] + [s[|s| - 1]];
    }
  }

  /** Spaces, tabs and carriage returns at the end of a line do not count. */
  lemma {:induction false} TrailingBlanks(s: string, post: string)
    requires forall i :: 0 <= i < |post| ==> post[i] == ' ' || post[i] == '\t' || post[i] == '\r'
    ensures TrimRightBlanks(s + post) == TrimRightBlanks(s)
  {
    if post == [] {
      assert s + post == s;
    } else {
      var n := |post| - 1;
      assert (s + post)[..|s + post| - 1] == s + post[..n];
      assert (s + post)[|s + post| - 1] == post[n];
      TrailingBlanks(s, post[..n]);
    }
  }

  function LeadingSpaces(s: string): (n: nat)
    ensures n <= |s|
  {
    if s != [] && s[0] == ' ' then 1 + LeadingSpaces(s[1..]) else 0
  }

  /** One significant line, given its indentation and trimmed text. */
  function Significant(st: Scan, indent: nat, t: string): Scan {
    if indent == 0 then
      st.(inServices := t == "services:", current := "", inVolumes := false)
    else if !st.inServices then st
    else if indent == 2 && HasSuffix(t, ":") then
      st.(current := t[..|t| - 1], services := st.services[t[..|t| - 1] := []], inVolumes := false)
    else if st.current == "" then st
    else if indent == 4 && t == "volumes:" then st.(inVolumes := true, seenVolumes := true)
    else
      var st1 := if indent == 4 && HasPrefix(t, "volumes:") then st.(known := false) else st;
      var st2 := if indent <= 4 then st1.(inVolumes := false) else st1;
      if st2.inVolumes && indent >= 6 && HasPrefix(t, "- ") then
        var mount := TrimSpace(t[2..]);
        var mounts := if st2.current in st2.services then st2.services[st2.current] else [];
        st2.(known := st2.known && !HasPrefix(mount, "type:"),
             services := st2.services[st2.current := mounts + [mount]])
      else st2
  }

  predicate Noise(line: string) {
    var t := TrimSpace(line);
    t == [] || t[0] == '#'
  }

  lemma BlankAt(s: string, n: nat)
    requires n <= |s| && Blank(s[..n])
    ensures forall k :: 0 <= k < n ==> IsSpace(s[k])
  {
    hide IsSpace;
    forall k | 0 <= k < n ensures IsSpace(s[k]) {
      assert s[..n][k] == s[k];
    }
  }

  /** A line is noise exactly when it is blank, or a '#' is the first thing on it. */
  lemma NoiseExactly(line: string)
    ensures Noise(line) <==> Blank(line) || exists i :: 0 <= i < |line| && Blank(line[..i]) && line[i] == '#'
  {
    assert !IsSpace('#');
    TrimSpaceBlank(line);
    TrimLeftFacts(line);
    var l := TrimLeftSpace(line);
    TrimRightFacts(l);
    hide IsSpace;
    var n := |line| - |l|;
    if !Blank(line) {
      assert l != [] && TrimSpace(line)[0] == l[0] == line[n];
      if i :| 0 <= i < |line| && Blank(line[..i]) && line[i] == '#' {
        BlankAt(line, i);
        BlankAt(line, n);
      }
    }
  }

  function Feed(st: Scan, raw: string): Scan {
    var line := TrimRightBlanks(raw);
    if Noise(line) then st else Significant(st, LeadingSpaces(line), TrimSpace(line))
  }

  function FeedAll(st: Scan, ls: seq<string>): Scan
    decreases |ls|
  {
    if ls == [] then st else FeedAll(Feed(st, ls[0]), ls[1..])
  }

  function ScanText(s: string): Scan { FeedAll(START, Split(s)) }

  method ComposeServiceMounts(compose: string)
    returns (services: map<string, seq<string>>, seenVolumes: bool, known: bool)
    ensures var r := ScanText(compose); services == r.services && seenVolumes == r.seenVolumes && known == r.known
  {
    hide Split;
    hide Noise;
    hide TrimSpace;
    hide TrimRightBlanks;
    hide LeadingSpaces;
    services := map[];
    var inServices, inVolumes := false, false;
    seenVolumes, known := false, true;
    var current := "";
    var lines := Split(compose);
    for i := 0 to |lines|
      invariant FeedAll(Scan(services, inServices, inVolumes, seenVolumes, known, current), lines[i..]) == ScanText(compose)
    {
      ghost var st := Scan(services, inServices, inVolumes, seenVolumes, known, current);
      assert lines[i..][0] == lines[i] && lines[i..][1..] == lines[i + 1..];
      var line := TrimRightBlanks(lines[i]);
      var trimmed := TrimSpace(line);
      if Noise(line) {
        continue;
      }
      var indent := LeadingSpaces(line);
      assert Feed(st, lines[i]) == Significant(st, indent, trimmed);
      if indent == 0 {
        inServices := trimmed == "services:";
        current, inVolumes := "", false;
        continue;
      }
      if !inServices {
        continue;
      }
      if indent == 2 && HasSuffix(trimmed, ":") {
        current := trimmed[..|trimmed| - 1];
        services := services[current := []];
        inVolumes := false;
        continue;
      }
      if current == "" {
        continue;
      }
      if indent == 4 && trimmed == "volumes:" {
        inVolumes, seenVolumes := true, true;
        continue;
      }
      if indent == 4 && HasPrefix(trimmed, "volumes:") {
        known := false;
      }
      if indent <= 4 {
        inVolumes := false;
      }
      if inVolumes && indent >= 6 && HasPrefix(trimmed, "- ") {
        var mount := TrimSpace(trimmed[2..]);
        if HasPrefix(mount, "type:") {
          known := false;
        }
        services := services[current := (if current in services then services[current] else []) + [mount]];
      }
    }
  }

  lemma SameKeys(a: set<string>, b: set<string>)
    requires a <= b && |a| == |b|
    ensures a == b
  {
    if x :| x in b && x !in a {
      SmallerThan(a, b, x);
    }
  }

  lemma SmallerThan(a: set<string>, b: set<string>, x: string)
    requires a <= b && x in b && x !in a
    ensures |a| < |b|
  {
    Subset(a, b - {x});
  }

  lemma Subset(a: set<string>, b: set<string>)
    requires a <= b
    ensures |a| <= |b|
  {
    if a != {} {
      var x :| x in a;
      Subset(a - {x}, b - {x});
    }
  }

  /** Same storage: both texts understood, and equal mounts service by service. */
  predicate SameMounts(a: Scan, b: Scan) {
    a.known && b.known && a.seenVolumes == b.seenVolumes && a.services == b.services
  }

  /** The guard reports a change when it gave up on a text, and otherwise compares exactly
      what it scanned; GivesUp says when it gives up. */
  method PersistentMountsChanged(current: string, replacement: string) returns (changed: bool)
    ensures !changed <==> SameMounts(ScanText(current), ScanText(replacement))
  {
    hide ScanText;
    var cm, cs, ck := ComposeServiceMounts(current);
    var rm, rs, rk := ComposeServiceMounts(replacement);
    if !ck || !rk || cs != rs || |cm| != |rm| {
      assert |cm| != |rm| ==> cm != rm;
      return true;
    }
    var todo := cm.Keys;
    while todo != {}
      invariant todo <= cm.Keys
      invariant forall k :: k in cm && k !in todo ==> k in rm && rm[k] == cm[k]
      decreases todo
    {
      var service :| service in todo;
      todo := todo - {service};
      var mounts := cm[service];
      if service !in rm || |mounts| != |rm[service]| {
        return true;
      }
      var candidate := rm[service];
      for i := 0 to |mounts|
        invariant forall j :: 0 <= j < i ==> mounts[j] == candidate[j]
      {
        if mounts[i] != candidate[i] {
          return true;
        }
      }
      assert mounts == candidate;
    }
    assert |cm.Keys| == |rm.Keys|;
    SameKeys(cm.Keys, rm.Keys);
    assert cm == rm;
    return false;
  }

  /** The guard's verdict is an equivalence on the texts it understands. */
  lemma SameMountsEquivalence(a: string, b: string, c: string)
    ensures SameMounts(ScanText(a), ScanText(b)) <==> SameMounts(ScanText(b), ScanText(a))
    ensures SameMounts(ScanText(a), ScanText(b)) && SameMounts(ScanText(b), ScanText(c)) ==> SameMounts(ScanText(a), ScanText(c))
    ensures SameMounts(ScanText(a), ScanText(a)) <==> ScanText(a).known
  {
    hide ScanText;
  }

  // ----- giving up -----

  /** The only lines that make a text unknown: under a service, `volumes:` with more on its
      line at indentation 4, or a listed mount in long syntax at indentation 6 or more. */
  predicate GivesUp(st: Scan, raw: string) {
    var line := TrimRightBlanks(raw);
    var indent, t := LeadingSpaces(line), TrimSpace(line);
    && st.inServices && st.current != ""
    && ((indent == 4 && HasPrefix(t, "volumes:") && t != "volumes:")
        || (st.inVolumes && indent >= 6 && HasPrefix(t, "- ") && HasPrefix(TrimSpace(t[2..]), "type:")))
  }

  lemma FeedKnown(st: Scan, raw: string)
    ensures Feed(st, raw).known <==> st.known && !GivesUp(st, raw)
  {
    var line := TrimRightBlanks(raw);
    var t := TrimSpace(line);
    if t == [] || t[0] == '#' {
      assert !HasPrefix(t, "volumes:") && !HasPrefix(t, "- ");
    }
    hide TrimSpace;
    hide TrimRightBlanks;
    hide LeadingSpaces;
  }

  /** A text is known exactly when no line of it made the scanner give up. */
  lemma {:induction false} KnownExactly(ls: seq<string>)
    ensures FeedAll(START, ls).known
       <==> forall k :: 0 <= k < |ls| ==> !GivesUp(FeedAll(START, ls[..k]), ls[k])
  {
    hide GivesUp;
    hide FeedAll;
    hide Feed;
    if ls == [] {
      FeedNone(START);
    } else {
      var n := |ls| - 1;
      var init := ls[..n];
      KnownExactly(init);
      assert ls == init + [ls[n]];
      FeedConcat(START, init, [ls[n]]);
      FeedOne(FeedAll(START, init), ls[n]);
      FeedKnown(FeedAll(START, init), ls[n]);
      assert forall k :: 0 <= k < n ==> init[..k] == ls[..k] && init[k] == ls[k];
    }
  }

  lemma FeedNone(st: Scan)
    ensures FeedAll(st, []) == st
  {
  }

  // ----- lines that do not matter -----

  lemma {:induction false} FeedConcat(st: Scan, a: seq<string>, b: seq<string>)
    ensures FeedAll(st, a + b) == FeedAll(FeedAll(st, a), b)
    decreases |a|
  {
    hide Feed;
    if a == [] {
      assert a + b == b;
    } else {
      assert (a + b)[1..] == a[1..] + b;
      FeedConcat(Feed(st, a[0]), a[1..], b);
    }
  }

  /** Trailing blanks never decide whether a line is noise, nor what it says. */
  lemma TrimRightBlanksTrimmed(raw: string)
    ensures TrimSpace(TrimRightBlanks(raw)) == TrimSpace(raw)
  {
    hide TrimSpace;
    var r := TrimRightBlanks(raw);
    TrimRightBlanksFacts(raw);
    assert raw == r + raw[|r|..];
    TrimSuffix(r, raw[|r|..]);
  }

  /** Blank and comment lines may be inserted anywhere. */
  lemma NoiseIgnored(a: seq<string>, noise: string, b: seq<string>)
    requires Noise(noise)
    ensures FeedAll(START, a + [noise] + b) == FeedAll(START, a + b)
  {
    hide TrimSpace;
    hide FeedAll;
    TrimRightBlanksTrimmed(noise);
    var st := FeedAll(START, a);
    FeedConcat(START, a, b);
    FeedConcat(START, a + [noise], b);
    FeedConcat(START, a, [noise]);
    FeedOne(st, noise);
  }

  lemma FeedOne(st: Scan, line: string)
    ensures FeedAll(st, [line]) == Feed(st, line)
  {
    hide Feed;
    assert [line][1..] == [];
  }

  // ----- normalisation -----

  function TrimAll(ls: seq<string>): (r: seq<string>)
    ensures |r| == |ls|
  {
    if ls == [] then [] else [TrimRightBlanks(ls[0])] + TrimAll(ls[1..])
  }

  function NormalizeComposeText(s: string): string { TrimSpace(Join(TrimAll(Split(s)))) }

  lemma TrimRightBlanksIdempotent(s: string)
    ensures TrimRightBlanks(TrimRightBlanks(s)) == TrimRightBlanks(s)
  {
  }

  lemma FeedTrimmed(st: Scan, line: string)
    ensures Feed(st, TrimRightBlanks(line)) == Feed(st, line)
  {
    hide Significant;
    hide Noise;
    TrimRightBlanksIdempotent(line);
  }

  lemma {:induction false} TrimAllSame(st: Scan, ls: seq<string>)
    ensures FeedAll(st, TrimAll(ls)) == FeedAll(st, ls)
    ensures Lines(ls) ==> Lines(TrimAll(ls))
    decreases |ls|
  {
    hide Feed;
    hide TrimRightBlanks;
    if ls != [] {
      FeedTrimmed(st, ls[0]);
      TrimRightBlanksFacts(ls[0]);
      assert TrimAll(ls)[1..] == TrimAll(ls[1..]);
      TrimAllSame(Feed(st, ls[0]), ls[1..]);
    }
  }

  /** Texts whose lines differ in trailing blanks only have one normal form. */
  lemma TrailingBlanksNormalize(a: seq<string>, b: seq<string>)
    requires Lines(a) && Lines(b) && |a| == |b| > 0
    requires forall i :: 0 <= i < |a| ==> TrimRightBlanks(a[i]) == TrimRightBlanks(b[i])
    ensures NormalizeComposeText(Join(a)) == NormalizeComposeText(Join(b))
  {
    hide TrimRightBlanks;
    hide TrimSpace;
    hide Split;
    hide Join;
    SplitJoin(a);
    SplitJoin(b);
    TrimAllEqual(a, b);
  }

  lemma {:induction false} TrimAllEqual(a: seq<string>, b: seq<string>)
    requires |a| == |b| && forall i :: 0 <= i < |a| ==> TrimRightBlanks(a[i]) == TrimRightBlanks(b[i])
    ensures TrimAll(a) == TrimAll(b)
  {
    hide TrimRightBlanks;
    if a != [] { TrimAllEqual(a[1..], b[1..]); }
  }

  /** Indentation of a line that says something. */
  lemma IndentOf(raw: string)
    requires !Blank(raw)
    ensures LeadingSpaces(TrimRightBlanks(raw)) == LeadingSpaces(raw)
  {
    var r := TrimRightBlanks(raw);
    TrimRightBlanksFacts(raw);
    assert raw == r + raw[|r|..];
    assert !Blank(r);
    LeadingAppends(r, raw[|r|..]);
  }

  lemma {:induction false} LeadingAppends(s: string, post: string)
    requires !Blank(s)
    ensures LeadingSpaces(s + post) == LeadingSpaces(s)
  {
    hide IsSpace;
    if s[0] == ' ' {
      assert IsSpace(' ') by { SpaceIsSpace(); }
      assert (s + post)[1..] == s[1..] + post;
      assert !Blank(s[1..]) by {
        var i :| 0 <= i < |s| && !IsSpace(s[i]);
        assert s[1..][i - 1] == s[i];
      }
      LeadingAppends(s[1..], post);
    }
  }

  lemma SpaceIsSpace()
    ensures IsSpace(' ') && IsSpace(NL)
  {
  }

  /** White space at the end of a line does not change how it is fed. */
  lemma FeedPadded(st: Scan, line: string, c: char)
    requires IsSpace(c)
    ensures Feed(st, line + [c]) == Feed(st, line)
  {
    hide IsSpace;
    hide TrimSpace;
    hide TrimRightBlanks;
    hide LeadingSpaces;
    hide Significant;
    TrimRightBlanksTrimmed(line);
    TrimRightBlanksTrimmed(line + [c]);
    TrimOneRight(line, c);
    TrimSpaceBlank(line);
    if !Blank(line) {
      var i :| 0 <= i < |line| && !IsSpace(line[i]);
      assert (line + [c])[i] == line[i];
      IndentOf(line);
      IndentOf(line + [c]);
      LeadingAppends(line, [c]);
    }
  }

  /** Adds a character to the last line. */
  function Extend(ls: seq<string>, c: char): (r: seq<string>)
    requires |ls| > 0
    ensures |r| > 0
  {
    ls[..|ls| - 1] + [ls[|ls| - 1] + [c]]
  }

  lemma PushExtend(h: char, ls: seq<string>, c: char)
    requires |ls| > 0
    ensures Push(h, Extend(ls, c)) == Extend(Push(h, ls), c)
  {
    var body, last := ls[..|ls| - 1], ls[|ls| - 1];
    assert ls == body + [last] && Extend(ls, c) == body + [last + [c]];
    if body == [] {
      PushSingle(h, last, c);
    } else {
      PushAppends(h, body, [last]);
      PushAppends(h, body, [last + [c]]);
      ExtendLast(Push(h, body), last, c);
    }
  }

  lemma ExtendLast(body: seq<string>, last: string, c: char)
    ensures Extend(body + [last], c) == body + [last + [c]]
  {
    assert (body + [last])[..|body|] == body;
  }

  lemma PushSingle(h: char, last: string, c: char)
    ensures Push(h, [last + [c]]) == Extend(Push(h, [last]), c)
  {
    if h == NL {
      ExtendLast([""], last, c);
      assert [""] + [last] == Push(h, [last]);
    } else {
      ExtendLast([], [h] + last, c);
      assert [last][1..] == [] && [last + [c]][1..] == [];
      assert [] + [[h] + last] == Push(h, [last]);
      assert [h] + (last + [c]) == [h] + last + [c];
    }
  }

  lemma {:induction false} SplitSnoc(s: string, c: char)
    ensures Split(s + [c]) == if c == NL then Split(s) + [""] else Extend(Split(s), c)
  {
    if c == NL {
      SplitAt(s, "");
      assert s + [NL] + "" == s + [c];
      SplitLine("");
    } else if s == [] {
      SplitLine([c]);
      SplitLine("");
      assert s + [c] == [c];
    } else {
      hide Push;
      hide Extend;
      SplitSnoc(s[1..], c);
      assert (s + [c])[1..] == s[1..] + [c];
      PushExtend(s[0], Split(s[1..]), c);
    }
  }

  lemma {:induction false} ScanRightTrimmed(s: string)
    ensures ScanText(TrimRightSpace(s)) == ScanText(s)
  {
    hide IsSpace;
    hide Split;
    hide FeedAll;
    hide Feed;
    if s != [] && IsSpace(s[|s| - 1]) {
      var init, c := s[..|s| - 1], s[|s| - 1];
      ScanRightTrimmed(init);
      assert init + [c] == s;
      SplitSnoc(init, c);
      var ls := Split(init);
      if c == NL {
        FeedConcat(START, ls, [""]);
        FeedOne(FeedAll(START, ls), "");
        EmptyIsNoise(FeedAll(START, ls));
      } else {
        var body, last := ls[..|ls| - 1], ls[|ls| - 1];
        assert ls == body + [last];
        FeedConcat(START, body, [last]);
        FeedConcat(START, body, [last + [c]]);
        FeedOne(FeedAll(START, body), last);
        FeedOne(FeedAll(START, body), last + [c]);
        FeedPadded(FeedAll(START, body), last, c);
      }
    }
  }

  lemma EmptyIsNoise(st: Scan)
    ensures Feed(st, "") == st
  {
  }

  /** The first line that is not blank, and the lines that follow it. */
  datatype Head = NoHead | Head(line: string, rest: seq<string>)

  function HeadOf(ls: seq<string>): (h: Head)
    ensures h.Head? ==> !Blank(h.line)
  {
    if ls == [] then NoHead
    else if Blank(ls[0]) then HeadOf(ls[1..])
    else Head(ls[0], ls[1..])
  }

  /** From the start, only the first line that is not blank can open the services. */
  lemma {:induction false} ScanFromHead(ls: seq<string>)
    ensures FeedAll(START, ls) == match HeadOf(ls)
      case NoHead => START
      case Head(line, rest) =>
        FeedAll(START.(inServices := LeadingSpaces(line) == 0 && TrimSpace(line) == "services:"), rest)
  {
    if ls != [] {
      TrimRightBlanksTrimmed(ls[0]);
      TrimSpaceBlank(ls[0]);
      hide TrimSpace;
      hide IsSpace;
      if Blank(ls[0]) {
        assert Feed(START, ls[0]) == START;
        ScanFromHead(ls[1..]);
      } else {
        IndentOf(ls[0]);
        FirstFeed(ls[0]);
      }
    }
  }

  lemma FirstFeed(line: string)
    requires LeadingSpaces(TrimRightBlanks(line)) == LeadingSpaces(line)
    requires TrimSpace(TrimRightBlanks(line)) == TrimSpace(line)
    ensures Feed(START, line) == START.(inServices := LeadingSpaces(line) == 0 && TrimSpace(line) == "services:")
  {
    hide TrimSpace;
    hide TrimRightBlanks;
    hide LeadingSpaces;
  }

  /** Leading white space keeps the trimmed head line and everything after it. */
  lemma {:induction false} HeadLeftTrimmed(s: string)
    ensures match HeadOf(Split(s))
      case NoHead => HeadOf(Split(TrimLeftSpace(s))) == NoHead
      case Head(line, rest) =>
        var h := HeadOf(Split(TrimLeftSpace(s)));
        h.Head? && TrimSpace(h.line) == TrimSpace(line) && h.rest == rest
  {
    hide IsSpace;
    hide TrimSpace;
    if s != [] && IsSpace(s[0]) {
      HeadLeftTrimmed(s[1..]);
      HeadOneLeft(s);
    }
  }

  lemma HeadOneLeft(s: string)
    requires s != [] && IsSpace(s[0])
    ensures match HeadOf(Split(s[1..]))
      case NoHead => HeadOf(Split(s)) == NoHead
      case Head(line, rest) =>
        HeadOf(Split(s)).Head? && TrimSpace(HeadOf(Split(s)).line) == TrimSpace(line) && HeadOf(Split(s)).rest == rest
  {
    hide IsSpace;
    hide TrimSpace;
    var ls := Split(s[1..]);
    if s[0] == NL {
      assert Split(s) == [""] + ls;
      assert Split(s)[1..] == ls;
    } else {
      var first := [s[0]] + ls[0];
      assert Split(s) == [first] + ls[1..];
      assert Split(s)[1..] == ls[1..];
      TrimPrefix([s[0]], ls[0]);
      TrimSpaceBlank(first);
      TrimSpaceBlank(ls[0]);
    }
  }

  /** The head line of a left-trimmed text is not indented. */
  lemma HeadOfTrimmed(s: string)
    requires s == [] || !IsSpace(s[0])
    ensures var h := HeadOf(Split(s)); if s == [] then h.NoHead? else h.Head? && LeadingSpaces(h.line) == 0
  {
    hide IsSpace;
    if s == [] {
      assert Split(s) == [""];
      assert [""][1..] == [];
    } else {
      SpaceIsSpace();
      assert Split(s)[0][0] == s[0];
    }
  }

  /** What normalisation does to a scan, for every text: the head line loses its
      indentation, nothing else matters. */
  lemma NormalizeScan(s: string)
    ensures match HeadOf(Split(s))
      case NoHead => ScanText(s) == START && ScanText(NormalizeComposeText(s)) == START
      case Head(line, rest) =>
        ScanText(s) == FeedAll(START.(inServices := LeadingSpaces(line) == 0 && TrimSpace(line) == "services:"), rest)
        && ScanText(NormalizeComposeText(s)) == FeedAll(START.(inServices := TrimSpace(line) == "services:"), rest)
  {
    hide IsSpace;
    hide TrimSpace;
    hide FeedAll;
    hide Split;
    hide Join;
    var ls := Split(s);
    var joined := Join(TrimAll(ls));
    TrimAllSame(START, ls);
    SplitJoin(TrimAll(ls));
    ScanFromHead(ls);
    NormalizeIs(s);
    var left := TrimLeftSpace(joined);
    TrimLeftFacts(joined);
    ScanRightTrimmed(left);
    HeadLeftTrimmed(joined);
    HeadOfTrimmed(left);
    ScanFromHead(Split(left));
    HeadOfTrimAll(ls);
    match HeadOf(ls) {
      case NoHead =>
      case Head(line, rest) =>
        var st := START.(inServices := TrimSpace(line) == "services:");
        TrimAllSame(st, rest);
    }
  }

  lemma NormalizeIs(s: string)
    ensures NormalizeComposeText(s) == TrimRightSpace(TrimLeftSpace(Join(TrimAll(Split(s)))))
  {
  }

  lemma {:induction false} HeadOfTrimAll(ls: seq<string>)
    ensures match HeadOf(ls)
      case NoHead => HeadOf(TrimAll(ls)) == NoHead
      case Head(line, rest) =>
        HeadOf(TrimAll(ls)) == Head(TrimRightBlanks(line), TrimAll(rest)) && TrimSpace(TrimRightBlanks(line)) == TrimSpace(line)
  {
    hide IsSpace;
    hide TrimSpace;
    if ls != [] {
      TrimRightBlanksTrimmed(ls[0]);
      TrimSpaceBlank(ls[0]);
      TrimSpaceBlank(TrimRightBlanks(ls[0]));
      assert TrimAll(ls)[1..] == TrimAll(ls[1..]);
      HeadOfTrimAll(ls[1..]);
    }
  }

  /** A text whose first line that is not blank is not an indented `services:`. */
  predicate Anchored(s: string) {
    match HeadOf(Split(s))
    case NoHead => true
    case Head(line, _) => LeadingSpaces(line) == 0 || TrimSpace(line) != "services:"
  }

  /** What the scanner returns. */
  predicate SameView(a: Scan, b: Scan) {
    a.services == b.services && a.seenVolumes == b.seenVolumes && a.known == b.known
  }

  predicate TopLevel(raw: string) {
    var line := TrimRightBlanks(raw);
    !Noise(line) && LeadingSpaces(line) == 0
  }

  /** How many lines come before the first one that is not indented. */
  function BlockLength(ls: seq<string>): (k: nat)
    ensures k <= |ls| && (k < |ls| ==> TopLevel(ls[k]))
    ensures forall i :: 0 <= i < k ==> !TopLevel(ls[i])
  {
    if ls == [] || TopLevel(ls[0]) then 0 else 1 + BlockLength(ls[1..])
  }

  /** Outside the services, indented lines say nothing. */
  lemma {:induction false} OutsideIgnored(ls: seq<string>)
    requires forall i :: 0 <= i < |ls| ==> !TopLevel(ls[i])
    ensures FeedAll(START, ls) == START
    decreases |ls|
  {
    if ls != [] {
      FeedOutside(ls[0]);
      OutsideIgnored(ls[1..]);
    }
  }

  lemma FeedOutside(raw: string)
    requires !TopLevel(raw)
    ensures Feed(START, raw) == START
  {
    hide TrimSpace;
    hide TrimRightBlanks;
    hide LeadingSpaces;
  }

  /** `big` goes on from `base` where `small` started afresh. */
  predicate Parallel(base: Scan, big: Scan, small: Scan) {
    && big == Scan(base.services + small.services, small.inServices, small.inVolumes,
                   base.seenVolumes || small.seenVolumes, base.known && small.known, small.current)
    && (small.current != "" ==> small.current in small.services)
  }

  lemma PutParallel(base: Scan, big: Scan, small: Scan, name: string, mounts: seq<string>)
    requires Parallel(base, big, small)
    ensures big.services[name := mounts] == base.services + small.services[name := mounts]
  {
  }

  lemma SignificantParallel(base: Scan, big: Scan, small: Scan, indent: nat, t: string)
    requires Parallel(base, big, small)
    ensures Parallel(base, Significant(big, indent, t), Significant(small, indent, t))
  {
    Affixes(t);
    hide TrimSpace;
    hide HasPrefix;
    hide HasSuffix;
    if indent == 2 && HasSuffix(t, ":") {
      PutParallel(base, big, small, t[..|t| - 1], []);
    } else if indent <= 4 {
      // no mount is read here
    } else if small.current != "" && HasPrefix(t, "- ") {
      assert big.services[small.current] == small.services[small.current];
      PutParallel(base, big, small, small.current, small.services[small.current] + [TrimSpace(t[2..])]);
    }
  }

  lemma Affixes(t: string)
    ensures HasSuffix(t, ":") ==> |t| >= 1
    ensures HasPrefix(t, "- ") ==> |t| >= 2
  {
  }

  lemma FeedParallel(base: Scan, big: Scan, small: Scan, raw: string)
    requires Parallel(base, big, small)
    ensures Parallel(base, Feed(big, raw), Feed(small, raw))
  {
    hide Parallel;
    hide Significant;
    hide Noise;
    hide TrimSpace;
    hide TrimRightBlanks;
    hide LeadingSpaces;
    var line := TrimRightBlanks(raw);
    SignificantParallel(base, big, small, LeadingSpaces(line), TrimSpace(line));
  }

  lemma {:induction false} FeedAllParallel(base: Scan, big: Scan, small: Scan, ls: seq<string>)
    requires Parallel(base, big, small)
    ensures Parallel(base, FeedAll(big, ls), FeedAll(small, ls))
    decreases |ls|
  {
    hide Feed;
    hide Parallel;
    if ls != [] {
      FeedParallel(base, big, small, ls[0]);
      FeedAllParallel(base, Feed(big, ls[0]), Feed(small, ls[0]), ls[1..]);
    }
  }

  /** Top-level sections are scanned independently: what a section finds is laid over what
      the lines before it found. */
  lemma SectionsOverlay(st: Scan, ls: seq<string>)
    requires ls == [] || TopLevel(ls[0])
    ensures var r, y := FeedAll(st, ls), FeedAll(START, ls);
            && r.services == st.services + y.services
            && r.seenVolumes == (st.seenVolumes || y.seenVolumes)
            && r.known == (st.known && y.known)
  {
    hide TrimSpace;
    hide TrimRightBlanks;
    hide LeadingSpaces;
    if ls != [] {
      FeedAllParallel(st, Feed(st, ls[0]), Feed(START, ls[0]), ls[1..]);
    }
  }

  lemma OverlayAddsNothing(x: map<string, seq<string>>, y: map<string, seq<string>>)
    ensures x + y == y <==> x.Keys <= y.Keys
  {
    if x + y == y {
      assert (x + y).Keys == x.Keys + y.Keys;
    }
  }

  /** Exactly when normalising changes what the scanner returns: never for an anchored text.
      Otherwise the block of lines under the indented `services:` head, `x`, is scanned only
      after normalising, and everything from the first unindented line on, `y`, either way;
      nothing changes if and only if y names every service of x again, has volumes if x does,
      and is not known if x is not. */
  lemma NormalizeChanges(s: string)
    ensures Anchored(s) ==> ScanText(NormalizeComposeText(s)) == ScanText(s)
    ensures !Anchored(s) ==>
      var rest := HeadOf(Split(s)).rest;
      var k := BlockLength(rest);
      var x, y := FeedAll(START.(inServices := true), rest[..k]), FeedAll(START, rest[k..]);
      SameView(ScanText(NormalizeComposeText(s)), ScanText(s))
      <==> x.services.Keys <= y.services.Keys && (x.seenVolumes ==> y.seenVolumes) && (y.known ==> x.known)
  {
    hide NormalizeComposeText;
    hide Split;
    hide FeedAll;
    hide TrimSpace;
    hide LeadingSpaces;
    NormalizeScan(s);
    if !Anchored(s) {
      hide ScanText;
      var rest := HeadOf(Split(s)).rest;
      var k := BlockLength(rest);
      hide TopLevel;
      var inside := START.(inServices := true);
      assert rest == rest[..k] + rest[k..];
      FeedConcat(START, rest[..k], rest[k..]);
      FeedConcat(inside, rest[..k], rest[k..]);
      OutsideIgnored(rest[..k]);
      SectionsOverlay(FeedAll(inside, rest[..k]), rest[k..]);
      OverlayAddsNothing(FeedAll(inside, rest[..k]).services, FeedAll(START, rest[k..]).services);
    }
  }

  /** An indented `services:` head is as good as none: such a text scans like its normal
      form pushed one column to the right. */
  lemma IndentedHeadScan(s: string)
    requires !Anchored(s)
    ensures ScanText(s) == ScanText(" " + NormalizeComposeText(s))
  {
    hide IsSpace;
    hide TrimSpace;
    hide FeedAll;
    hide Join;
    hide Split;
    var ls := Split(s);
    var joined := Join(TrimAll(ls));
    TrimAllSame(START, ls);
    SplitJoin(TrimAll(ls));
    ScanFromHead(ls);
    NormalizeIs(s);
    var left := TrimLeftSpace(joined);
    TrimLeftFacts(joined);
    HeadLeftTrimmed(joined);
    HeadOfTrimmed(left);
    HeadOfTrimAll(ls);
    TrimAllSame(START, HeadOf(ls).rest);
    TrimRightPushed(left);
    ScanRightTrimmed(" " + left);
    PushedHead(left);
    ScanFromHead(Split(" " + left));
  }

  lemma {:induction false} TrimRightPushed(s: string)
    requires s != [] && !IsSpace(s[0])
    ensures TrimRightSpace(" " + s) == " " + TrimRightSpace(s)
  {
    hide IsSpace;
    assert (" " + s)[|s|] == s[|s| - 1];
    if IsSpace(s[|s| - 1]) {
      assert (" " + s)[..|s|] == " " + s[..|s| - 1];
      TrimRightPushed(s[..|s| - 1]);
    }
  }

  lemma PushedHead(s: string)
    requires s != [] && !IsSpace(s[0])
    ensures var h, h' := HeadOf(Split(s)), HeadOf(Split(" " + s));
            h.Head? && h'.Head? && h'.rest == h.rest && LeadingSpaces(h'.line) > 0
  {
    hide IsSpace;
    SpaceIsSpace();
    var ls := Split(s);
    assert (" " + s)[1..] == s;
    assert Split(" " + s) == [" " + ls[0]] + ls[1..];
    assert ls[0][0] == s[0] && (" " + ls[0])[1] == s[0];
    assert Split(" " + s)[1..] == ls[1..];
    assert LeadingSpaces(" " + ls[0]) > 0;
  }

  /** Texts with one normal form: the same scan when both or neither open with an indented
      `services:`, so the guard reports a change only for what it does not understand; and
      when just one of them does, exactly if pushing the normal form to the right does not
      change its scan. */
  lemma SameNormalSameMounts(a: string, b: string)
    requires NormalizeComposeText(a) == NormalizeComposeText(b)
    ensures (Anchored(a) <==> Anchored(b)) ==>
      ScanText(a) == ScanText(b) && (SameMounts(ScanText(a), ScanText(b)) <==> ScanText(a).known)
    ensures Anchored(a) && !Anchored(b) ==>
      var n := NormalizeComposeText(a); (ScanText(a) == ScanText(b) <==> ScanText(n) == ScanText(" " + n))
  {
    hide NormalizeComposeText;
    hide ScanText;
    hide Anchored;
    NormalizeChanges(a);
    NormalizeChanges(b);
    if !Anchored(a) { IndentedHeadScan(a); }
    if !Anchored(b) { IndentedHeadScan(b); }
  }
}
