/** The mount scanner over every way to indent a Compose file: with any but the usual
    indentation, or something behind a service name, mounts go unseen without the scanner
    noticing, and the guard lets a change of mounts through. */
module ComposeStyles {
  import opened Text
  import opened MountScan
  import opened ComposeLayout

  // ----- other indentations -----

  /** What holds all through a file in any other indentation: it counts as understood, and
      no service shows a mount. */
  predicate Blind(y: Style, st: Scan) {
    && st.inServices && st.known
    && (st.inVolumes ==> st.current != "" && y.volumes == 4)
    && (y.service != 2 && y.volumes != 2 ==> st.current == "")
    && (forall k :: k in st.services ==> st.services[k] == [])
  }

  /** A line that neither opens a list elsewhere nor is read as a mount. */
  lemma SignificantBlind(y: Style, st: Scan, n: nat, t: string)
    requires Blind(y, st) && n > 0 && (n == 2 ==> y.service == 2 || y.volumes == 2)
    requires st.current != "" && n == 4 && HasPrefix(t, "volumes:") ==> t == "volumes:" && y.volumes == 4
    requires !(st.inVolumes && n >= 6 && HasPrefix(t, "- "))
    ensures var st' := Significant(st, n, t);
            && Blind(y, st')
            && (n != 2 || !HasSuffix(t, ":") ==> st'.services == st.services && st'.current == st.current)
            && (st'.seenVolumes <==> st.seenVolumes || (st.current != "" && n == 4 && t == "volumes:"))
            && (n <= 4 && !(n == 4 && t == "volumes:") ==> !st'.inVolumes)
            && (st'.inVolumes ==> st.inVolumes || (n == 4 && t == "volumes:"))
  {
  }

  lemma AsideBlind(y: Style, st: Scan, raw: string)
    requires Nested(y) && Blind(y, st) && Aside(y, raw) && (st.inVolumes ==> NoiseAt(raw) || IndentAt(raw) <= 4)
    ensures var st' := Feed(st, raw);
            && Blind(y, st') && (st'.inVolumes ==> st.inVolumes && NoiseAt(raw)) && st'.seenVolumes == st.seenVolumes
            && (y.volumes != 2 ==> st'.services == st.services && st'.current == st.current)
  {
    FeedRaw(st, raw);
    hide Feed;
    hide NoiseAt;
    hide IndentAt;
    hide TextAt;
    hide Blind;
    if !NoiseAt(raw) {
      SignificantBlind(y, st, IndentAt(raw), TextAt(raw));
    }
  }

  /** Other keys, outside a list or behind one that a key ends. */
  lemma {:induction false} AsidesBlind(y: Style, st: Scan, ls: seq<string>)
    requires Nested(y) && Blind(y, st) && Asides(y, ls) && (st.inVolumes ==> OpensKey(y, ls))
    ensures var st' := FeedAll(st, ls);
            && Blind(y, st') && (st'.inVolumes ==> st.inVolumes) && st'.seenVolumes == st.seenVolumes
            && (y.volumes != 2 ==> st'.services == st.services && st'.current == st.current)
    decreases |ls|
  {
    hide Feed;
    hide NoiseAt;
    hide IndentAt;
    hide Aside;
    if ls != [] {
      AsideBlind(y, st, ls[0]);
      AsidesBlind(y, Feed(st, ls[0]), ls[1..]);
    }
  }

  lemma NameBlind(y: Style, st: Scan, s: Service)
    requires Nested(y) && Blind(y, st) && Word(s.name) && Behind(s.behind)
    ensures var st' := Feed(st, Spaces(y.service) + NameText(s));
            && Blind(y, st') && !st'.inVolumes && st'.seenVolumes == st.seenVolumes
            && (y.service == 2 && s.behind == "" ==> st'.services == st.services[s.name := []] && st'.current == s.name)
  {
    hide Feed;
    NameIsWord(s);
    FeedWord(st, y.service, NameText(s));
    LabelIs(s);
    hide Word;
    hide NameText;
    SignificantBlind(y, st, y.service, NameText(s));
    if y.service > 4 {
      assert st.current == "";
    }
  }

  /** The volume list of a service: what it leaves does not depend on the mounts. */
  function AfterVolumes(y: Style, st: Scan): Scan {
    var st' := Significant(st, y.volumes, "volumes:");
    if y.mounts <= 4 then st'.(inVolumes := false) else st'
  }

  lemma VolumesBlind(y: Style, st: Scan, mounts: seq<string>)
    requires Nested(y) && !Indented(y) && Blind(y, st) && !st.inVolumes && mounts != []
    requires forall i :: 0 <= i < |mounts| ==> Word(mounts[i]) && (y.mounts == 2 ==> !HasSuffix(mounts[i], ":"))
    ensures FeedAll(st, VolumeLines(y, mounts)) == AfterVolumes(y, st) && Blind(y, AfterVolumes(y, st))
    ensures AfterVolumes(y, st).seenVolumes <==> st.seenVolumes || (st.current != "" && y.volumes == 4)
    ensures y.volumes != 2 ==> AfterVolumes(y, st).services == st.services
  {
    hide Feed;
    hide FeedAll;
    hide Spaces;
    VolumesWord();
    VolumesInTurn(st, y, mounts);
    FeedWord(st, y.volumes, "volumes:");
    SignificantBlind(y, st, y.volumes, "volumes:");
    hide Word;
    hide Significant;
    hide HasSuffix;
    MountsOnlyClose(Significant(st, y.volumes, "volumes:"), y.mounts, mounts);
  }

  lemma ServiceBlind(y: Style, st: Scan, s: Service)
    requires Nested(y) && !Indented(y) && Blind(y, st) && Conventional(y, s) && Quiet(y, s)
    ensures var st' := FeedAll(st, ServiceLines(y, s));
            && Blind(y, st')
            && (y.service == 2 && s.behind == "" ==>
                  st'.services == st.services[s.name := []]
                  && (st'.seenVolumes <==> st.seenVolumes || (y.volumes == 4 && s.mounts != [])))
  {
    hide Feed;
    hide FeedAll;
    hide Spaces;
    hide Asides;
    hide OpensKey;
    hide Blind;
    ServiceInTurn(st, y, s);
    NameBlind(y, st, s);
    WordNonempty(s.name);
    hide Word;
    hide NameText;
    var st1 := Feed(st, Spaces(y.service) + NameText(s));
    AsidesBlind(y, st1, s.before);
    var st2 := FeedAll(st1, s.before);
    if s.mounts == [] {
      FeedNone(st2);
      AsidesBlind(y, st2, s.after);
    } else {
      hide AfterVolumes;
      VolumesBlind(y, st2, s.mounts);
      AsidesBlind(y, AfterVolumes(y, st2), s.after);
    }
  }

  /** In column 2, a mount that ends in a colon would itself be taken for a service. */
  predicate Quiet(y: Style, s: Service) {
    y.mounts == 2 ==> forall i :: 0 <= i < |s.mounts| ==> !HasSuffix(s.mounts[i], ":")
  }

  predicate AllQuiet(y: Style, ss: seq<Service>) { forall i :: 0 <= i < |ss| ==> Quiet(y, ss[i]) }

  function NamesOf(ss: seq<Service>): map<string, seq<string>> {
    if ss == [] then map[] else NamesOf(ss[..|ss| - 1])[ss[|ss| - 1].name := []]
  }

  lemma {:induction false} BodyBlind(y: Style, ss: seq<Service>)
    requires Nested(y) && !Indented(y) && AllConventional(y, ss) && AllQuiet(y, ss)
    ensures var st := FeedAll(START.(inServices := true), BodyLines(y, ss));
            && Blind(y, st)
            && (y.service == 2 && (forall i :: 0 <= i < |ss| ==> ss[i].behind == "") ==>
                  st.services == NamesOf(ss) && (st.seenVolumes <==> y.volumes == 4 && AnyMounts(ss)))
  {
    hide FeedAll;
    hide Conventional;
    hide Quiet;
    hide AnyMounts;
    hide ServiceLines;
    var st := START.(inServices := true);
    if ss == [] {
      FeedNone(st);
      NoMounts();
    } else {
      var init, s := ss[..|ss| - 1], ss[|ss| - 1];
      BodyBlind(y, init);
      ServiceBlind(y, FeedAll(st, BodyLines(y, init)), s);
      FeedConcat(st, BodyLines(y, init), ServiceLines(y, s));
      AnyMountsSnoc(ss);
    }
  }

  /** In any indentation but the usual one, such as list dashes in the column of `volumes:`,
      every file counts as understood and no mount is seen, whatever other keys it has; with
      plain names at two spaces the names are all that is seen. */
  lemma MountsVanish(y: Style, f: File)
    requires Nested(y) && !Indented(y) && InStyle(y, f) && AllQuiet(y, f.services)
    ensures var st := ScanText(FileText(y, f));
            && st.known && (forall k :: k in st.services ==> st.services[k] == [])
            && (y.service == 2 && !y.behind ==>
                  st.services == NamesOf(f.services) && (st.seenVolumes <==> y.volumes == 4 && AnyMounts(f.services)))
  {
    hide FeedAll;
    hide ScanText;
    hide FileText;
    hide Elsewhere;
    hide Asides;
    hide OpensKey;
    hide Word;
    hide AnyMounts;
    ScanOfFile(y, f);
    FileInTurn(y, f);
    if f.behind == "" {
      BodyBlind(y, f.services);
    } else {
      BodyElsewhere(y, f.services);
    }
  }

  /** The same service with other mounts. */
  predicate Remounted(a: Service, b: Service) {
    b == a.(mounts := b.mounts) && (a.mounts == [] <==> b.mounts == [])
  }

  predicate AllRemounted(a: seq<Service>, b: seq<Service>) {
    |a| == |b| && forall i :: 0 <= i < |a| ==> Remounted(a[i], b[i])
  }

  lemma ServiceRemounted(y: Style, st: Scan, a: Service, b: Service)
    requires Nested(y) && !Indented(y) && Blind(y, st) && Remounted(a, b)
    requires Conventional(y, a) && Quiet(y, a) && Conventional(y, b) && Quiet(y, b)
    ensures FeedAll(st, ServiceLines(y, a)) == FeedAll(st, ServiceLines(y, b))
  {
    hide Feed;
    hide FeedAll;
    hide Spaces;
    hide Asides;
    hide OpensKey;
    hide Blind;
    ServiceInTurn(st, y, a);
    ServiceInTurn(st, y, b);
    NameBlind(y, st, a);
    hide Word;
    var st1 := Feed(st, Spaces(y.service) + NameText(a));
    AsidesBlind(y, st1, a.before);
    if a.mounts != [] {
      hide AfterVolumes;
      VolumesBlind(y, FeedAll(st1, a.before), a.mounts);
      VolumesBlind(y, FeedAll(st1, a.before), b.mounts);
    }
  }

  lemma {:induction false} BodyRemounted(y: Style, a: seq<Service>, b: seq<Service>)
    requires Nested(y) && !Indented(y) && AllRemounted(a, b)
    requires AllConventional(y, a) && AllQuiet(y, a) && AllConventional(y, b) && AllQuiet(y, b)
    ensures var st := START.(inServices := true); FeedAll(st, BodyLines(y, a)) == FeedAll(st, BodyLines(y, b))
  {
    hide FeedAll;
    hide Conventional;
    hide Quiet;
    hide Remounted;
    hide ServiceLines;
    hide Blind;
    var st := START.(inServices := true);
    if a != [] {
      var n := |a| - 1;
      BodyRemounted(y, a[..n], b[..n]);
      BodyBlind(y, a[..n]);
      ServiceRemounted(y, FeedAll(st, BodyLines(y, a[..n])), a[n], b[n]);
      FeedConcat(st, BodyLines(y, a[..n]), ServiceLines(y, a[n]));
      FeedConcat(st, BodyLines(y, b[..n]), ServiceLines(y, b[n]));
    }
  }

  /** So there the guard lets every change of mounts through. */
  lemma RemountUnseen(y: Style, a: File, b: File)
    requires Nested(y) && !Indented(y) && AllRemounted(a.services, b.services) && b == a.(services := b.services)
    requires InStyle(y, a) && AllQuiet(y, a.services) && InStyle(y, b) && AllQuiet(y, b.services)
    ensures SameMounts(ScanText(FileText(y, a)), ScanText(FileText(y, b)))
  {
    hide FeedAll;
    hide ScanText;
    hide FileText;
    hide Elsewhere;
    hide Conventional;
    hide AllQuiet;
    hide AllRemounted;
    MountsVanish(y, a);
    ScanOfFile(y, a);
    ScanOfFile(y, b);
    FileInTurn(y, a);
    FileInTurn(y, b);
    if a.behind == "" {
      BodyRemounted(y, a.services, b.services);
    } else {
      BodyElsewhere(y, a.services);
      BodyElsewhere(y, b.services);
    }
  }

  // ----- names that are not recognised -----

  predicate Unnamed(y: Style, s: Service) { y.service != 2 || !Recognised(s) }

  lemma ServiceUnnamed(y: Style, s: Service)
    requires Nested(y) && y.volumes != 2 && Conventional(y, s) && Unnamed(y, s)
    ensures FeedAll(START.(inServices := true), ServiceLines(y, s)) == START.(inServices := true)
  {
    hide Feed;
    hide FeedAll;
    hide Spaces;
    hide Asides;
    hide OpensKey;
    var st := START.(inServices := true);
    ServiceInTurn(st, y, s);
    NameIsWord(s);
    LabelIs(s);
    VolumesWord();
    hide Word;
    hide Recognised;
    FeedWord(st, y.service, NameText(s));
    hide NameText;
    assert Feed(st, Spaces(y.service) + NameText(s)) == st;
    AsidesIgnored(st, y, s.before);
    AsidesIgnored(st, y, s.after);
    if s.mounts == [] {
      FeedNone(st);
    } else {
      VolumesInTurn(st, y, s.mounts);
      FeedWord(st, y.volumes, "volumes:");
      MountsOnlyClose(st, y.mounts, s.mounts);
    }
  }

  lemma {:induction false} BodyUnnamed(y: Style, ss: seq<Service>)
    requires Nested(y) && y.volumes != 2 && AllConventional(y, ss) && forall i :: 0 <= i < |ss| ==> Unnamed(y, ss[i])
    ensures FeedAll(START.(inServices := true), BodyLines(y, ss)) == START.(inServices := true)
  {
    hide FeedAll;
    hide Conventional;
    hide Unnamed;
    hide ServiceLines;
    var st := START.(inServices := true);
    if ss == [] {
      FeedNone(st);
    } else {
      BodyUnnamed(y, ss[..|ss| - 1]);
      ServiceUnnamed(y, ss[|ss| - 1]);
      FeedConcat(st, BodyLines(y, ss[..|ss| - 1]), ServiceLines(y, ss[|ss| - 1]));
    }
  }

  /** With names not at two spaces, such as a file indented by fours, or with a comment
      behind every name, nothing is seen at all, and the file still counts as understood. */
  lemma ServicesVanish(y: Style, f: File)
    requires Nested(y) && y.volumes != 2 && InStyle(y, f)
    requires forall i :: 0 <= i < |f.services| ==> Unnamed(y, f.services[i])
    ensures SameView(ScanText(FileText(y, f)), START)
  {
    hide FeedAll;
    hide ScanText;
    hide FileText;
    hide Elsewhere;
    hide Conventional;
    hide Unnamed;
    ScanOfFile(y, f);
    FileInTurn(y, f);
    if f.behind == "" {
      BodyUnnamed(y, f.services);
    } else {
      BodyElsewhere(y, f.services);
    }
  }

  // ----- exactly when the guard judges by the mounts -----

  /** One service with one mount, and perhaps a comment behind its name. */
  function Sample(y: Style, m: string): File {
    File([], "", [Service("web", if y.behind then " # app" else "", [], [m], [])], [])
  }

  lemma SampleFacts(y: Style, m: string)
    requires m == "x" || m == "y"
    ensures InStyle(y, Sample(y, m)) && AllQuiet(y, Sample(y, m).services)
    ensures MountsOf(Sample(y, m).services) == map["web" := [m]] && AnyMounts(Sample(y, m).services)
    ensures Recognised(Sample(y, m).services[0]) <==> !y.behind
  {
    var ss := Sample(y, m).services;
    assert ss[..0] == [] && ss[0].mounts != [];
  }

  lemma LetThrough(y: Style)
    requires Nested(y) && !Understood(y)
    ensures !Judges(y, Sample(y, "x"), Sample(y, "y"))
  {
    hide ScanText;
    hide FileText;
    hide InStyle;
    hide AllQuiet;
    hide MountsOf;
    hide AnyMounts;
    hide Recognised;
    var a, b := Sample(y, "x"), Sample(y, "y");
    SampleFacts(y, "x");
    SampleFacts(y, "y");
    assert MountsOf(a.services)["web"] == ["x"] && MountsOf(b.services)["web"] == ["y"];
    assert ["x"][0][0] == 'x' && ["y"][0][0] == 'y';
    if Indented(y) {
      ServicesVanish(y, a);
      ServicesVanish(y, b);
    } else {
      RemountUnseen(y, a, b);
    }
  }

  /** Exactly the styles in which the guard judges every two files by their mounts: the usual
      indentation with nothing behind the names. In every other style there are two files
      with different mounts that it lets through. */
  lemma UnderstoodExactly(y: Style)
    requires Nested(y)
    ensures (forall a, b :: InStyle(y, a) && InStyle(y, b) ==> Judges(y, a, b)) <==> Understood(y)
  {
    hide Judges;
    hide InStyle;
    if Understood(y) {
      forall a, b | InStyle(y, a) && InStyle(y, b) ensures Judges(y, a, b) {
        ConventionalGuard(y, a, b);
      }
    } else {
      LetThrough(y);
      SampleFacts(y, "x");
      SampleFacts(y, "y");
    }
  }
}
