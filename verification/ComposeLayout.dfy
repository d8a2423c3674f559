/** What the mount scanner understands, over Compose files written from a list of services
    with any other keys around them. With the usual indentation and nothing behind a service
    name they scan back as exactly those services; inline or long volume syntax makes the
    scanner give up for good, in the places where it looks. */
module ComposeLayout {
  import opened Text
  import opened MountScan

  /** A service: its name, what stands behind the colon of the name (a comment, an anchor),
      the lines of its other keys before `volumes:`, its mounts, and the lines after them. */
  datatype Service = Service(name: string, behind: string, before: seq<string>, mounts: seq<string>, after: seq<string>)

  /** A file: top-level sections before the services, what stands behind `services:`, the
      services, and the top-level sections after them. */
  datatype File = File(head: seq<string>, behind: string, services: seq<Service>, tail: seq<string>)

  /** Indentation of service names, of their keys and of the listed mounts, and whether
      anything may stand behind a name or behind `services:`. */
  datatype Style = Style(service: nat, volumes: nat, mounts: nat, behind: bool)

  /** What YAML accepts: a list may stand in the column of its key. */
  predicate Nested(y: Style) { 0 < y.service < y.volumes <= y.mounts }

  /** The indentation the scanner is made for. */
  predicate Indented(y: Style) { y.service == 2 && y.volumes == 4 && y.mounts >= 6 }

  predicate Understood(y: Style) { Indented(y) && !y.behind }

  /** A text that stands alone on its line and is not a comment. */
  predicate Word(t: string) { t != "" && Trimmed(t) && OneLine(t) && t[0] != '#' }

  /** Nothing, or a text set off by a blank. */
  predicate Behind(t: string) { t == "" || (t[0] == ' ' && OneLine(t) && !IsSpace(t[|t| - 1])) }

  function IndentAt(raw: string): nat { LeadingSpaces(TrimRightBlanks(raw)) }

  function TextAt(raw: string): string { TrimSpace(TrimRightBlanks(raw)) }

  predicate NoiseAt(raw: string) { Noise(TrimRightBlanks(raw)) }

  /** A line of another key: noise, or deeper than the service name (in the column of the
      keys or beyond it), and not a second `volumes:` in column 4. */
  predicate Aside(y: Style, raw: string) {
    && OneLine(raw)
    && (NoiseAt(raw)
        || (IndentAt(raw) > y.service && (IndentAt(raw) == 2 ==> y.volumes == 2)
            && !(IndentAt(raw) == 4 && HasPrefix(TextAt(raw), "volumes:"))))
  }

  predicate Asides(y: Style, ls: seq<string>) { forall i :: 0 <= i < |ls| ==> Aside(y, ls[i]) }

  /** What follows the mounts opens with a key in the column of `volumes:`. */
  predicate OpensKey(y: Style, ls: seq<string>) {
    ls != [] ==> if NoiseAt(ls[0]) then OpensKey(y, ls[1..]) else IndentAt(ls[0]) == y.volumes
  }

  /** A service in short syntax, with any other keys. */
  predicate Conventional(y: Style, s: Service) {
    && Word(s.name) && Behind(s.behind) && (s.behind != "" ==> y.behind)
    && (forall i :: 0 <= i < |s.mounts| ==> Word(s.mounts[i]) && !HasPrefix(s.mounts[i], "type:"))
    && Asides(y, s.before) && Asides(y, s.after) && (s.mounts != [] ==> OpensKey(y, s.after))
  }

  predicate AllConventional(y: Style, ss: seq<Service>) { forall i :: 0 <= i < |ss| ==> Conventional(y, ss[i]) }

  /** A line that does not open the services. */
  predicate Elsewhere(raw: string) {
    OneLine(raw) && !(!NoiseAt(raw) && IndentAt(raw) == 0 && TextAt(raw) == "services:")
  }

  predicate InStyle(y: Style, f: File) {
    && (forall i :: 0 <= i < |f.head| ==> Elsewhere(f.head[i]))
    && (forall i :: 0 <= i < |f.tail| ==> Elsewhere(f.tail[i]))
    && (f.tail == [] || TopLevel(f.tail[0]))
    && Behind(f.behind) && (f.behind != "" ==> y.behind)
    && AllConventional(y, f.services)
  }

  function Spaces(n: nat): string { seq(n, _ => ' ') }

  function MountLines(n: nat, mounts: seq<string>): (ls: seq<string>)
    ensures |ls| == |mounts|
  {
    seq(|mounts|, i requires 0 <= i < |mounts| => Spaces(n) + ("- " + mounts[i]))
  }

  function NameText(s: Service): string { s.name + ":" + s.behind }

  function VolumeLines(y: Style, mounts: seq<string>): seq<string> {
    if mounts == [] then [] else [Spaces(y.volumes) + "volumes:"] + MountLines(y.mounts, mounts)
  }

  function ServiceLines(y: Style, s: Service): seq<string> {
    [Spaces(y.service) + NameText(s)] + s.before + VolumeLines(y, s.mounts) + s.after
  }

  function BodyLines(y: Style, ss: seq<Service>): seq<string> {
    if ss == [] then [] else BodyLines(y, ss[..|ss| - 1]) + ServiceLines(y, ss[|ss| - 1])
  }

  function FileLines(y: Style, f: File): seq<string> {
    f.head + ["services:" + f.behind] + BodyLines(y, f.services) + f.tail
  }

  function FileText(y: Style, f: File): string { Join(FileLines(y, f)) }

  /** The services a file lists; a name listed twice counts as listed last. */
  function MountsOf(ss: seq<Service>): map<string, seq<string>> {
    if ss == [] then map[] else MountsOf(ss[..|ss| - 1])[ss[|ss| - 1].name := ss[|ss| - 1].mounts]
  }

  predicate AnyMounts(ss: seq<Service>) { exists i :: 0 <= i < |ss| && ss[i].mounts != [] }

  // ----- single lines -----

  lemma {:induction false} LeadingOf(n: nat, t: string)
    requires t != "" && t[0] != ' '
    ensures LeadingSpaces(Spaces(n) + t) == n
  {
    if n == 0 {
      assert Spaces(0) + t == t;
    } else {
      assert (Spaces(n) + t)[1..] == Spaces(n - 1) + t;
      LeadingOf(n - 1, t);
    }
  }

  lemma SpacesBlank(n: nat)
    ensures Blank(Spaces(n))
  {
  }

  /** A word on its own line, indented by n spaces, is fed with that indentation. */
  lemma FeedWord(st: Scan, n: nat, t: string)
    requires Word(t)
    ensures Feed(st, Spaces(n) + t) == Significant(st, n, t)
  {
    hide Significant;
    var line := Spaces(n) + t;
    assert line[|line| - 1] == t[|t| - 1];
    NotBlankEnd(t);
    assert TrimRightBlanks(line) == line;
    hide TrimRightBlanks;
    hide TrimSpace;
    hide IsSpace;
    SpacesBlank(n);
    TrimPrefix(Spaces(n), t);
    TrimSpaceFixes(t);
    LeadingOf(n, t);
  }

  lemma NotBlankEnd(t: string)
    requires Word(t)
    ensures t[0] != ' ' && t[|t| - 1] != ' ' && t[|t| - 1] != '\t' && t[|t| - 1] != '\r'
  {
  }

  lemma Words(t: string)
    requires Word(t)
    ensures Word(t + ":") && Word("- " + t) && TrimSpace(("- " + t)[2..]) == t
  {
    assert !IsSpace(':') && !IsSpace('-');
    hide TrimSpace;
    TrimSpaceFixes(t);
    assert ("- " + t)[2..] == t;
    var m := "- " + t;
    assert m[|m| - 1] == t[|t| - 1];
  }

  lemma NameIsWord(s: Service)
    requires Word(s.name) && Behind(s.behind)
    ensures Word(NameText(s))
  {
    assert !IsSpace(':');
    var t := NameText(s);
    assert t[0] == s.name[0];
    assert t[|t| - 1] == if s.behind == "" then ':' else s.behind[|s.behind| - 1];
  }

  lemma VolumesWord()
    ensures Word("volumes:") && Word("services:")
  {
  }

  lemma WordNonempty(t: string)
    requires Word(t)
    ensures t != ""
  {
  }

  lemma IndentedOneLine(n: nat, t: string)
    requires OneLine(t)
    ensures OneLine(Spaces(n) + t)
  {
  }

  /** A raw line is fed by its indentation and text. */
  lemma FeedRaw(st: Scan, raw: string)
    ensures Feed(st, raw) == if NoiseAt(raw) then st else Significant(st, IndentAt(raw), TextAt(raw))
  {
  }

  // ----- other keys -----

  /** Outside a volume list, other keys say nothing. */
  lemma AsideIgnored(st: Scan, y: Style, raw: string)
    requires st.inServices && !st.inVolumes && Aside(y, raw) && y.volumes != 2
    ensures Feed(st, raw) == st
  {
    FeedRaw(st, raw);
    hide Feed;
    hide NoiseAt;
    hide IndentAt;
    hide TextAt;
  }

  lemma {:induction false} AsidesIgnored(st: Scan, y: Style, ls: seq<string>)
    requires st.inServices && !st.inVolumes && Asides(y, ls) && y.volumes != 2
    ensures FeedAll(st, ls) == st
    decreases |ls|
  {
    hide Feed;
    hide Aside;
    if ls != [] {
      AsideIgnored(st, y, ls[0]);
      AsidesIgnored(st, y, ls[1..]);
    }
  }

  /** The key that follows a volume list in its column ends the list. */
  lemma {:induction false} KeyEndsList(st: Scan, y: Style, ls: seq<string>)
    requires st.inServices && y.volumes == 4 && Asides(y, ls) && OpensKey(y, ls)
    requires st.inVolumes ==> st.current != ""
    ensures var st' := FeedAll(st, ls); st' == st.(inVolumes := st'.inVolumes) && (st'.inVolumes ==> st.inVolumes)
    decreases |ls|
  {
    hide Feed;
    if ls != [] {
      FeedRaw(st, ls[0]);
      hide NoiseAt;
      hide IndentAt;
      hide TextAt;
      if NoiseAt(ls[0]) {
        KeyEndsList(st, y, ls[1..]);
      } else {
        assert Aside(y, ls[0]);
        assert Feed(st, ls[0]) == st.(inVolumes := false);
        AsidesIgnored(st.(inVolumes := false), y, ls[1..]);
      }
    }
  }

  /** Feeding a service is feeding its parts in turn. */
  lemma ServiceInTurn(st: Scan, y: Style, s: Service)
    ensures FeedAll(st, ServiceLines(y, s))
         == FeedAll(FeedAll(FeedAll(Feed(st, Spaces(y.service) + NameText(s)), s.before), VolumeLines(y, s.mounts)), s.after)
  {
    hide Feed;
    hide FeedAll;
    hide Spaces;
    hide VolumeLines;
    hide NameText;
    var name := [Spaces(y.service) + NameText(s)];
    FeedOne(st, name[0]);
    FeedConcat(st, name, s.before);
    FeedConcat(st, name + s.before, VolumeLines(y, s.mounts));
    FeedConcat(st, name + s.before + VolumeLines(y, s.mounts), s.after);
  }

  lemma VolumesInTurn(st: Scan, y: Style, mounts: seq<string>)
    requires mounts != []
    ensures FeedAll(st, VolumeLines(y, mounts)) == FeedAll(Feed(st, Spaces(y.volumes) + "volumes:"), MountLines(y.mounts, mounts))
  {
    hide Feed;
    hide FeedAll;
    hide Spaces;
    var volumes := Spaces(y.volumes) + "volumes:";
    FeedOne(st, volumes);
    FeedConcat(st, [volumes], MountLines(y.mounts, mounts));
  }

  // ----- the usual indentation -----

  lemma {:induction false} FeedMounts(st: Scan, n: nat, mounts: seq<string>)
    requires st.inServices && st.inVolumes && st.current != "" && st.current in st.services && n >= 6
    requires forall i :: 0 <= i < |mounts| ==> Word(mounts[i]) && !HasPrefix(mounts[i], "type:")
    ensures FeedAll(st, MountLines(n, mounts)) == st.(services := st.services[st.current := st.services[st.current] + mounts])
    decreases |mounts|
  {
    hide Feed;
    hide TrimSpace;
    hide Word;
    if mounts == [] {
      assert st.services[st.current] + mounts == st.services[st.current];
    } else {
      var m := mounts[0];
      Words(m);
      FeedWord(st, n, "- " + m);
      var st' := Feed(st, Spaces(n) + ("- " + m));
      assert st' == st.(services := st.services[st.current := st.services[st.current] + [m]]);
      assert MountLines(n, mounts)[1..] == MountLines(n, mounts[1..]);
      FeedMounts(st', n, mounts[1..]);
      assert st.services[st.current] + [m] + mounts[1..] == st.services[st.current] + mounts;
    }
  }

  /** The name line is recognised: nothing stands behind the colon, or something that ends
      in a colon itself. */
  predicate Recognised(s: Service) { s.behind == "" || s.behind[|s.behind| - 1] == ':' }

  /** The name under which it is recognised. */
  function Label(s: Service): string { NameText(s)[..|NameText(s)| - 1] }

  lemma LabelIs(s: Service)
    requires Word(s.name)
    ensures Recognised(s) <==> HasSuffix(NameText(s), ":")
    ensures Label(s) != "" && (s.behind == "" ==> Label(s) == s.name)
  {
    var t := NameText(s);
    assert t[|t| - 1..] == [t[|t| - 1]];
  }

  lemma FeedName(st: Scan, s: Service)
    requires st.inServices && Word(s.name) && Behind(s.behind) && (st.inVolumes ==> st.current != "")
    ensures Feed(st, Spaces(2) + NameText(s))
         == if Recognised(s) then st.(services := st.services[Label(s) := []], inVolumes := false, current := Label(s))
            else st.(inVolumes := false)
  {
    hide Feed;
    NameIsWord(s);
    LabelIs(s);
    hide Word;
    hide NameText;
    hide Recognised;
    FeedWord(st, 2, NameText(s));
  }

  lemma FeedPlainName(st: Scan, name: string)
    requires st.inServices && Word(name) && (st.inVolumes ==> st.current != "")
    ensures Feed(st, Spaces(2) + (name + ":")) == st.(services := st.services[name := []], inVolumes := false, current := name)
  {
    hide Feed;
    var s := Service(name, "", [], [], []);
    FeedName(st, s);
    LabelIs(s);
    assert NameText(s) == name + ":";
  }

  /** What the scanner makes of a list of services in the usual indentation. */
  datatype Found = Found(services: map<string, seq<string>>, current: string, seenVolumes: bool)

  /** The mounts of a service that is not recognised go to the last one that was, or to
      nobody. */
  function Attribute(ss: seq<Service>): (r: Found)
    ensures r.current != "" ==> r.current in r.services
  {
    if ss == [] then Found(map[], "", false) else AttributeOne(Attribute(ss[..|ss| - 1]), ss[|ss| - 1])
  }

  function AttributeOne(f: Found, s: Service): (r: Found)
    requires f.current != "" ==> f.current in f.services
    ensures r.current != "" ==> r.current in r.services
  {
    var current := if Recognised(s) then Label(s) else f.current;
    var services := if Recognised(s) then f.services[Label(s) := []] else f.services;
    if s.mounts == [] || current == "" then Found(services, current, f.seenVolumes)
    else Found(services[current := services[current] + s.mounts], current, true)
  }

  /** The scanner stands where f says. */
  predicate At(st: Scan, f: Found) {
    && st.inServices && st.known && (st.inVolumes ==> st.current != "")
    && st.services == f.services && st.current == f.current && st.seenVolumes == f.seenVolumes
    && (f.current != "" ==> f.current in f.services)
  }

  lemma FeedService(st: Scan, f: Found, y: Style, s: Service)
    requires At(st, f) && Conventional(y, s) && Indented(y)
    ensures At(FeedAll(st, ServiceLines(y, s)), AttributeOne(f, s))
  {
    hide Feed;
    hide FeedAll;
    hide Spaces;
    hide Asides;
    hide OpensKey;
    ServiceInTurn(st, y, s);
    FeedName(st, s);
    LabelIs(s);
    hide Recognised;
    hide Label;
    hide NameText;
    hide Word;
    var st1 := Feed(st, Spaces(2) + NameText(s));
    AsidesIgnored(st1, y, s.before);
    FeedVolumes(st1, y, s.mounts);
    var st2 := FeedAll(st1, VolumeLines(y, s.mounts));
    if s.mounts == [] {
      AsidesIgnored(st2, y, s.after);
    } else {
      KeyEndsList(st2, y, s.after);
    }
  }

  lemma FeedVolumes(st: Scan, y: Style, mounts: seq<string>)
    requires st.inServices && !st.inVolumes && Indented(y) && (st.current != "" ==> st.current in st.services)
    requires forall i :: 0 <= i < |mounts| ==> Word(mounts[i]) && !HasPrefix(mounts[i], "type:")
    ensures FeedAll(st, VolumeLines(y, mounts))
         == if mounts == [] || st.current == "" then st
            else st.(services := st.services[st.current := st.services[st.current] + mounts], inVolumes := true, seenVolumes := true)
  {
    hide Feed;
    hide FeedAll;
    hide Spaces;
    VolumesWord();
    hide Word;
    if mounts == [] {
      FeedNone(st);
    } else {
      VolumesInTurn(st, y, mounts);
      FeedWord(st, 4, "volumes:");
      if st.current == "" {
        MountsOnlyClose(st, y.mounts, mounts);
      } else {
        FeedMounts(st.(inVolumes := true, seenVolumes := true), y.mounts, mounts);
      }
    }
  }

  /** Listed mounts that are not read can only close a volume list. */
  lemma {:induction false} MountsOnlyClose(st: Scan, n: nat, mounts: seq<string>)
    requires st.inServices && n > 0 && mounts != [] && (st.inVolumes ==> st.current != "" && n < 6)
    requires forall i :: 0 <= i < |mounts| ==> Word(mounts[i]) && (n == 2 ==> !HasSuffix(mounts[i], ":"))
    ensures FeedAll(st, MountLines(n, mounts)) == if n <= 4 then st.(inVolumes := false) else st
    decreases |mounts|
  {
    hide Feed;
    hide TrimSpace;
    var m := mounts[0];
    var line := Spaces(n) + ("- " + m);
    Words(m);
    FeedWord(st, n, "- " + m);
    DashText(m);
    hide Word;
    hide HasSuffix;
    hide HasPrefix;
    var st' := Feed(st, line);
    assert st' == if n <= 4 then st.(inVolumes := false) else st;
    assert MountLines(n, mounts)[0] == line;
    assert MountLines(n, mounts)[1..] == MountLines(n, mounts[1..]);
    if |mounts| == 1 {
      assert MountLines(n, mounts[1..]) == [];
    } else {
      MountsOnlyClose(st', n, mounts[1..]);
    }
  }

  lemma DashText(m: string)
    requires m != ""
    ensures !HasPrefix("- " + m, "volumes:") && "- " + m != "volumes:"
    ensures HasSuffix("- " + m, ":") <==> HasSuffix(m, ":")
  {
    var t := "- " + m;
    assert t[0] == '-';
    assert t[|t| - 1..] == [m[|m| - 1]] == m[|m| - 1..];
  }

  lemma {:induction false} FeedBody(y: Style, ss: seq<Service>)
    requires Indented(y) && AllConventional(y, ss)
    ensures At(FeedAll(START.(inServices := true), BodyLines(y, ss)), Attribute(ss))
  {
    hide FeedAll;
    hide Conventional;
    hide AttributeOne;
    hide At;
    var st := START.(inServices := true);
    if ss == [] {
      FeedNone(st);
      StartsAt();
    } else {
      var init, s := ss[..|ss| - 1], ss[|ss| - 1];
      FeedBody(y, init);
      FeedService(FeedAll(st, BodyLines(y, init)), Attribute(init), y, s);
      FeedConcat(st, BodyLines(y, init), ServiceLines(y, s));
    }
  }

  lemma StartsAt()
    ensures At(START.(inServices := true), Found(map[], "", false))
  {
  }

  // ----- whole files -----

  lemma FeedElsewhere(raw: string)
    requires Elsewhere(raw)
    ensures Feed(START, raw) == START
  {
    FeedRaw(START, raw);
    hide Feed;
    hide NoiseAt;
    hide IndentAt;
    hide TextAt;
  }

  lemma {:induction false} ElsewhereIgnored(ls: seq<string>)
    requires forall i :: 0 <= i < |ls| ==> Elsewhere(ls[i])
    ensures FeedAll(START, ls) == START
    decreases |ls|
  {
    hide Feed;
    hide Elsewhere;
    if ls != [] {
      FeedElsewhere(ls[0]);
      ElsewhereIgnored(ls[1..]);
    }
  }

  lemma FeedHeader(behind: string)
    requires Behind(behind)
    ensures Feed(START, "services:" + behind) == START.(inServices := behind == "")
  {
    hide Feed;
    var s := Service("services", behind, [], [], []);
    assert Word("services") by { VolumesWord(); }
    NameIsWord(s);
    hide Word;
    assert NameText(s) == "services:" + behind by { assert "services" + ":" == "services:"; }
    FeedWord(START, 0, NameText(s));
    assert Spaces(0) + NameText(s) == NameText(s);
    assert |"services:" + behind| == |"services:"| + |behind|;
    assert behind == "" ==> "services:" + behind == "services:";
  }

  /** A file scans as the body under its `services:` line does, if that line is recognised;
      the sections around it add nothing. */
  lemma FileInTurn(y: Style, f: File)
    requires InStyle(y, f)
    ensures SameView(FeedAll(START, FileLines(y, f)),
                     FeedAll(START.(inServices := f.behind == ""), BodyLines(y, f.services)))
  {
    hide Feed;
    hide FeedAll;
    hide BodyLines;
    hide Elsewhere;
    hide AllConventional;
    hide TopLevel;
    hide Behind;
    var header, body := ["services:" + f.behind], BodyLines(y, f.services);
    ElsewhereIgnored(f.head);
    FeedConcat(START, f.head, header);
    FeedHeader(f.behind);
    FeedOne(START, header[0]);
    FeedConcat(START, f.head + header, body);
    FeedConcat(START, f.head + header + body, f.tail);
    ElsewhereIgnored(f.tail);
    SectionsOverlay(FeedAll(START.(inServices := f.behind == ""), body), f.tail);
  }

  lemma LinesConcat(a: seq<string>, b: seq<string>)
    requires Lines(a) && Lines(b)
    ensures Lines(a + b)
  {
  }

  lemma AsidesAreLines(y: Style, ls: seq<string>)
    requires Asides(y, ls)
    ensures Lines(ls)
  {
    hide NoiseAt;
    hide IndentAt;
    hide TextAt;
  }

  lemma VolumeLinesAreLines(y: Style, mounts: seq<string>)
    requires forall i :: 0 <= i < |mounts| ==> Word(mounts[i])
    ensures Lines(VolumeLines(y, mounts))
  {
    hide Trimmed;
    hide Spaces;
    VolumesWord();
    IndentedOneLine(y.volumes, "volumes:");
    forall i | 0 <= i < |mounts| ensures OneLine(MountLines(y.mounts, mounts)[i]) {
      IndentedOneLine(y.mounts, "- " + mounts[i]);
    }
  }

  lemma ServiceLinesAreLines(y: Style, s: Service)
    requires Conventional(y, s)
    ensures Lines(ServiceLines(y, s))
  {
    hide Lines;
    hide Asides;
    hide Spaces;
    NameIsWord(s);
    IndentedOneLine(y.service, NameText(s));
    VolumeLinesAreLines(y, s.mounts);
    AsidesAreLines(y, s.before);
    AsidesAreLines(y, s.after);
    var name := [Spaces(y.service) + NameText(s)];
    assert Lines(name) by { OneIsLines(name[0]); }
    LinesConcat(name, s.before);
    LinesConcat(name + s.before, VolumeLines(y, s.mounts));
    LinesConcat(name + s.before + VolumeLines(y, s.mounts), s.after);
  }

  lemma OneIsLines(line: string)
    requires OneLine(line)
    ensures Lines([line])
  {
  }

  lemma {:induction false} BodyLinesAreLines(y: Style, ss: seq<Service>)
    requires AllConventional(y, ss)
    ensures Lines(BodyLines(y, ss))
  {
    hide Conventional;
    hide ServiceLines;
    if ss != [] {
      BodyLinesAreLines(y, ss[..|ss| - 1]);
      ServiceLinesAreLines(y, ss[|ss| - 1]);
    }
  }

  lemma ScanOfFile(y: Style, f: File)
    requires InStyle(y, f)
    ensures ScanText(FileText(y, f)) == FeedAll(START, FileLines(y, f))
  {
    hide FeedAll;
    hide Split;
    hide Join;
    hide BodyLines;
    hide AllConventional;
    hide TopLevel;
    hide NoiseAt;
    hide IndentAt;
    hide TextAt;
    BodyLinesAreLines(y, f.services);
    VolumesWord();
    SplitJoin(FileLines(y, f));
  }

  /** Any file in the usual indentation, whatever its other keys and whatever stands behind
      its names: it counts as understood, and mounts are seen under the last recognised name
      before them. */
  lemma LayoutScans(y: Style, f: File)
    requires Indented(y) && InStyle(y, f)
    ensures var st := ScanText(FileText(y, f));
            if f.behind != "" then SameView(st, START)
            else st.known && st.services == Attribute(f.services).services && st.seenVolumes == Attribute(f.services).seenVolumes
  {
    hide FeedAll;
    hide ScanText;
    hide FileText;
    hide Attribute;
    ScanOfFile(y, f);
    FileInTurn(y, f);
    FeedBody(y, f.services);
    if f.behind != "" {
      BodyElsewhere(y, f.services);
    }
  }

  lemma IndentedElsewhere(n: nat, t: string)
    requires n > 0 && Word(t)
    ensures Elsewhere(Spaces(n) + t)
  {
    FeedsAs(n, t);
    IndentedOneLine(n, t);
  }

  lemma FeedsAs(n: nat, t: string)
    requires Word(t)
    ensures IndentAt(Spaces(n) + t) == n
  {
    var line := Spaces(n) + t;
    assert line[|line| - 1] == t[|t| - 1];
    NotBlankEnd(t);
    assert TrimRightBlanks(line) == line;
    LeadingOf(n, t);
  }

  lemma ServiceElsewhere(y: Style, s: Service)
    requires Nested(y) && Conventional(y, s)
    ensures forall i :: 0 <= i < |ServiceLines(y, s)| ==> Elsewhere(ServiceLines(y, s)[i])
  {
    hide Spaces;
    hide NameText;
    hide NoiseAt;
    hide IndentAt;
    hide TextAt;
    NameIsWord(s);
    VolumesWord();
    forall i | 0 <= i < |s.mounts| ensures Word("- " + s.mounts[i]) {
      Words(s.mounts[i]);
    }
    hide Word;
    IndentedElsewhere(y.service, NameText(s));
    IndentedElsewhere(y.volumes, "volumes:");
    forall i | 0 <= i < |s.mounts| ensures Elsewhere(MountLines(y.mounts, s.mounts)[i]) {
      IndentedElsewhere(y.mounts, "- " + s.mounts[i]);
    }
  }

  /** Without a recognised `services:` line, nothing in the body is looked at. */
  lemma {:induction false} BodyElsewhere(y: Style, ss: seq<Service>)
    requires Nested(y) && AllConventional(y, ss)
    ensures FeedAll(START, BodyLines(y, ss)) == START
  {
    hide FeedAll;
    hide Conventional;
    hide ServiceLines;
    hide Elsewhere;
    if ss == [] {
      FeedNone(START);
    } else {
      BodyElsewhere(y, ss[..|ss| - 1]);
      ServiceElsewhere(y, ss[|ss| - 1]);
      ElsewhereIgnored(ServiceLines(y, ss[|ss| - 1]));
      FeedConcat(START, BodyLines(y, ss[..|ss| - 1]), ServiceLines(y, ss[|ss| - 1]));
    }
  }

  lemma AnyMountsSnoc(ss: seq<Service>)
    requires ss != []
    ensures AnyMounts(ss) <==> AnyMounts(ss[..|ss| - 1]) || ss[|ss| - 1].mounts != []
  {
    var init, s := ss[..|ss| - 1], ss[|ss| - 1];
    if AnyMounts(init) {
      var i :| 0 <= i < |init| && init[i].mounts != [];
      assert ss[i].mounts != [];
    }
    if AnyMounts(ss) && s.mounts == [] {
      var i :| 0 <= i < |ss| && ss[i].mounts != [];
      assert init[i].mounts != [];
    }
  }

  lemma {:induction false} NothingBehind(ss: seq<Service>)
    requires forall i :: 0 <= i < |ss| ==> ss[i].behind == "" && Word(ss[i].name)
    ensures Attribute(ss).services == MountsOf(ss) && (Attribute(ss).seenVolumes <==> AnyMounts(ss))
  {
    hide Word;
    hide Label;
    hide AnyMounts;
    if ss == [] {
      assert !AnyMounts(ss) by { NoMounts(); }
    } else {
      NothingBehind(ss[..|ss| - 1]);
      AnyMountsSnoc(ss);
      var s := ss[|ss| - 1];
      LabelIs(s);
      assert [] + s.mounts == s.mounts;
    }
  }

  lemma NoMounts()
    ensures !AnyMounts([])
  {
  }

  /** The round trip: with nothing behind the names, a file is understood and scans as its
      services, whatever other keys it has. */
  lemma ConventionalScans(y: Style, f: File)
    requires Understood(y) && InStyle(y, f)
    ensures var st := ScanText(FileText(y, f));
            st.known && st.services == MountsOf(f.services) && (st.seenVolumes <==> AnyMounts(f.services))
  {
    hide ScanText;
    hide FileText;
    LayoutScans(y, f);
    hide Elsewhere;
    hide Asides;
    hide OpensKey;
    hide Attribute;
    hide AnyMounts;
    hide Word;
    NothingBehind(f.services);
  }

  /** The guard's verdict on two files of this style is equality of their mounts. */
  predicate Judges(y: Style, a: File, b: File) {
    SameMounts(ScanText(FileText(y, a)), ScanText(FileText(y, b)))
    <==> MountsOf(a.services) == MountsOf(b.services) && (AnyMounts(a.services) <==> AnyMounts(b.services))
  }

  /** So between such files the guard sees exactly a change of mounts. */
  lemma ConventionalGuard(y: Style, a: File, b: File)
    requires Understood(y) && InStyle(y, a) && InStyle(y, b)
    ensures Judges(y, a, b)
  {
    hide ScanText;
    hide FileText;
    hide InStyle;
    hide AnyMounts;
    ConventionalScans(y, a);
    ConventionalScans(y, b);
  }

  // ----- inline and long syntax -----

  lemma FileHeader()
    ensures FeedAll(START, ["services:"]) == START.(inServices := true)
  {
    hide Feed;
    FeedHeader("");
    assert "services:" + "" == "services:";
    FeedOne(START, "services:");
  }

  lemma {:induction false} UnknownForever(st: Scan, ls: seq<string>)
    requires !st.known
    ensures !FeedAll(st, ls).known
    decreases |ls|
  {
    hide TrimSpace;
    hide TrimRightBlanks;
    if ls != [] { UnknownForever(Feed(st, ls[0]), ls[1..]); }
  }

  lemma UnknownFrom(pre: seq<string>, line: string, post: seq<string>)
    requires !Feed(FeedAll(START, pre), line).known
    ensures !FeedAll(START, pre + [line] + post).known
  {
    hide Feed;
    hide FeedAll;
    FeedOne(FeedAll(START, pre), line);
    FeedConcat(START, pre, [line]);
    FeedConcat(START, pre + [line], post);
    UnknownForever(FeedAll(START, pre + [line]), post);
  }

  /** Inline volumes at indentation 4 under a recognised service make the whole file
      unknown, so the guard reports a change whatever it is compared with. */
  lemma InlineVolumesFailClosed(pre: seq<string>, rest: string, post: seq<string>)
    requires Word("volumes:" + rest) && rest != ""
    requires var st := FeedAll(START, pre); st.inServices && st.current != ""
    ensures !FeedAll(START, pre + [Spaces(4) + ("volumes:" + rest)] + post).known
  {
    hide Feed;
    hide FeedAll;
    FeedWord(FeedAll(START, pre), 4, "volumes:" + rest);
    assert "volumes:" <= "volumes:" + rest && |"volumes:" + rest| > |"volumes:"|;
    UnknownFrom(pre, Spaces(4) + ("volumes:" + rest), post);
  }

  /** ... and only there: the same line at another indentation below the service is not
      noticed, whatever it says. */
  lemma InlineVolumesExactly(name: string, n: nat, rest: string)
    requires Word(name) && Word("volumes:" + rest) && rest != "" && n > 2
    ensures var st := FeedAll(START, ["services:", Spaces(2) + (name + ":"), Spaces(n) + ("volumes:" + rest)]);
            st.services == map[name := []] && !st.seenVolumes && (st.known <==> n != 4)
  {
    hide Feed;
    hide FeedAll;
    hide Spaces;
    var st := START.(inServices := true);
    var head, line := Spaces(2) + (name + ":"), Spaces(n) + ("volumes:" + rest);
    FileHeader();
    FeedPlainName(st, name);
    WordNonempty(name);
    var st1 := Feed(st, head);
    FeedOne(st, head);
    FeedConcat(START, ["services:"], [head]);
    FeedWord(st1, n, "volumes:" + rest);
    FeedOne(st1, line);
    FeedConcat(START, ["services:"] + [head], [line]);
    assert ["services:"] + [head] + [line] == ["services:", head, line];
    assert ("volumes:" + rest)[0] == 'v' && |"volumes:" + rest| > |"volumes:"|;
    assert "volumes:" <= "volumes:" + rest;
  }

  /** A long-syntax mount listed at indentation 6 or more does the same. */
  lemma LongMountFailsClosed(pre: seq<string>, n: nat, rest: string, post: seq<string>)
    requires Word("type:" + rest) && n >= 6
    requires var st := FeedAll(START, pre); st.inServices && st.inVolumes && st.current != ""
    ensures !FeedAll(START, pre + [Spaces(n) + ("- " + ("type:" + rest))] + post).known
  {
    hide Feed;
    hide FeedAll;
    hide TrimSpace;
    var mount := "type:" + rest;
    Words(mount);
    FeedWord(FeedAll(START, pre), n, "- " + mount);
    UnknownFrom(pre, Spaces(n) + ("- " + mount), post);
  }

  // ----- an indented head -----

  /** A text that opens with an indented `services:` and goes on with a service scans as
      empty, and as having that service once normalised. */
  lemma IndentedHeadDiffers(name: string)
    requires Word(name)
    ensures var s := Join([Spaces(2) + "services:", Spaces(2) + (name + ":")]);
            && ScanText(s) == START
            && ScanText(NormalizeComposeText(s)).services == map[name := []]
            && !SameMounts(ScanText(s), ScanText(NormalizeComposeText(s)))
  {
    hide FeedAll;
    hide Feed;
    hide ScanText;
    hide NormalizeComposeText;
    hide Spaces;
    var line := Spaces(2) + (name + ":");
    Words(name);
    IndentedOneLine(2, name + ":");
    IndentedHead(line);
    var s := Join([Spaces(2) + "services:", line]);
    FeedOne(START, line);
    FeedOne(START.(inServices := true), line);
    FeedPlainName(START.(inServices := true), name);
    hide Word;
    FeedWord(START, 2, name + ":");
    assert ScanText(NormalizeComposeText(s)).services == map[name := []];
    assert name in ScanText(NormalizeComposeText(s)).services && name !in START.services;
  }

  lemma IndentedHead(line: string)
    requires OneLine(line)
    ensures var s := Join([Spaces(2) + "services:", line]);
            ScanText(s) == FeedAll(START, [line])
            && ScanText(NormalizeComposeText(s)) == FeedAll(START.(inServices := true), [line])
  {
    hide FeedAll;
    hide ScanText;
    hide NormalizeComposeText;
    hide Join;
    hide Split;
    hide TrimSpace;
    var head := Spaces(2) + "services:";
    var ls := [head, line];
    VolumesWord();
    IndentedOneLine(2, "services:");
    SplitJoin(ls);
    SpacesBlank(2);
    TrimPrefix(Spaces(2), "services:");
    TrimSpaceFixes("services:");
    LeadingOf(2, "services:");
    assert !Blank(head) by { assert head[2] == 's'; }
    assert ls[1..] == [line];
    NormalizeScan(Join(ls));
  }

  /** ... but not when the next line is not indented either. */
  lemma IndentedHeadHarmless(t: string)
    requires Word(t)
    ensures var s := Join([Spaces(2) + "services:", t]);
            ScanText(s) == ScanText(NormalizeComposeText(s)) == START.(inServices := t == "services:")
  {
    hide FeedAll;
    hide Feed;
    hide ScanText;
    hide NormalizeComposeText;
    IndentedHead(t);
    FeedOne(START, t);
    FeedOne(START.(inServices := true), t);
    assert Spaces(0) + t == t;
    FeedWord(START, 0, t);
    FeedWord(START.(inServices := true), 0, t);
  }
}
