/** Post-update container verification: judging two samples of the project's containers
    and the bounded polling loop around it. */
module VerifyUpdate {
  import opened Text

  datatype ServiceState = ServiceState(
    state: string,
    health: string,
    exitCode: int,
    restarts: int,
    restartPolicy: string)

  type Sample = map<string, ServiceState>

  datatype Poll = Sampled(sample: Sample) | Failed(error: string)

  // ----- judging one container -----

  datatype Failure =
    | Changed(name: string)
    | Restarted(name: string, times: int)
    | BadState(name: string, state: string)
    | BadHealth(name: string, health: string)
    | Gone(name: string)

  datatype Verdict = Fine | Fails(failure: Failure)

  /** The verdict of unstableUpdateServices on one container name. */
  function Judge(first: Sample, last: Sample, name: string): Verdict {
    if name !in last then (if name in first then Fails(Gone(name)) else Fine)
    else if name !in first then Fails(Changed(name))
    else
      var c := last[name];
      if c.restarts > first[name].restarts then Fails(Restarted(name, c.restarts - first[name].restarts))
      else if c.state == "exited" && c.exitCode == 0 && c.restartPolicy == "no" then Fine
      else if c.state != "running" then Fails(BadState(name, c.state))
      else if c.health == "unhealthy" || c.health == "starting" then Fails(BadHealth(name, c.health))
      else Fine
  }

  /** In both samples, and not restarted in between. */
  predicate Steady(first: Sample, last: Sample, name: string) {
    name in first && name in last && last[name].restarts <= first[name].restarts
  }

  /** A one-shot container that did its work. */
  predicate OneShotDone(c: ServiceState) { c.state == "exited" && c.exitCode == 0 && c.restartPolicy == "no" }

  /** Which failure the two states of a container call for. */
  predicate Shows(first: Sample, last: Sample, name: string, f: Failure) {
    match f
    case Gone(n) => n == name && name in first && name !in last
    case Changed(n) => n == name && name !in first && name in last
    case Restarted(n, times) =>
      n == name && name in first && name in last && times > 0 && last[name].restarts == first[name].restarts + times
    case BadState(n, state) =>
      n == name && Steady(first, last, name) && state == last[name].state != "running" && !OneShotDone(last[name])
    case BadHealth(n, health) =>
      n == name && Steady(first, last, name) && last[name].state == "running"
      && health == last[name].health && health in ["unhealthy", "starting"]
  }

  /** Kind and payload of every failure, exactly. */
  lemma JudgesExactly(first: Sample, last: Sample, name: string, f: Failure)
    ensures Judge(first, last, name) == Fails(f) <==> Shows(first, last, name, f)
  {
  }

  function FailingNames(first: Sample, last: Sample): set<string> {
    set name | name in first.Keys + last.Keys && Judge(first, last, name).Fails?
  }

  /** What a successful verification means. */
  predicate Stable(first: Sample, last: Sample) {
    && first.Keys == last.Keys
    && forall name :: name in last ==>
         var c := last[name];
         && c.restarts <= first[name].restarts
         && ((c.state == "exited" && c.exitCode == 0 && c.restartPolicy == "no")
             || (c.state == "running" && c.health != "unhealthy" && c.health != "starting"))
  }

  lemma StableIsNoFailure(first: Sample, last: Sample)
    ensures FailingNames(first, last) == {} <==> Stable(first, last)
  {
    if FailingNames(first, last) == {} {
      forall name | name in first.Keys + last.Keys ensures Judge(first, last, name).Fine? {
        assert name !in FailingNames(first, last);
      }
      assert first.Keys == last.Keys;
    } else {
      var name :| name in FailingNames(first, last);
      assert Judge(first, last, name).Fails?;
    }
  }

  // ----- the texts, and what their endings mean -----

  function Digits(n: nat): string {
    if n < 10 then [('0' as int + n) as char] else Digits(n / 10) + [('0' as int + n % 10) as char]
  }

  function Decimal(n: int): string { if n < 0 then "-" + Digits(-n) else Digits(n) }

  /** The number that a text of digits writes. */
  function ValueOf(s: string): nat {
    if s == [] then 0
    else 10 * ValueOf(s[..|s| - 1]) + (if s[|s| - 1] >= '0' then s[|s| - 1] as int - '0' as int else 0)
  }

  lemma {:induction false} DigitsRead(n: nat)
    ensures ValueOf(Digits(n)) == n && Digits(n) != []
    ensures forall i :: 0 <= i < |Digits(n)| ==> '0' <= Digits(n)[i] <= '9'
  {
    if n < 10 {
      assert Digits(n)[..0] == [];
    } else {
      DigitsRead(n / 10);
      assert Digits(n)[..|Digits(n)| - 1] == Digits(n / 10);
    }
  }

  function Render(f: Failure): string {
    match f
    case Changed(n) => n + ": container changed during verification"
    case Restarted(n, k) => n + ": restarted " + Decimal(k) + " time(s) after Compose up"
    case BadState(n, s) => n + ": " + s
    case BadHealth(n, h) => n + ": " + h
    case Gone(n) => n + ": disappeared during verification"
  }

  lemma SuffixLast(s: string, p: string)
    requires HasSuffix(s, p) && p != ""
    ensures s[|s| - 1] == p[|p| - 1]
  {
    assert s[|s| - |p|..][|p| - 1] == s[|s| - 1];
  }

  const STARTING := ": starting"

  /** A text "name: word" ends in ": starting" exactly when the word is "starting" or
      itself ends so, whatever the name. */
  lemma StartingEnding(name: string, word: string)
    ensures HasSuffix(name + ": " + word, STARTING) <==> word == "starting" || HasSuffix(word, STARTING)
  {
    var s := name + ": " + word;
    assert STARTING == ": " + "starting";
    if |word| >= 10 {
      assert s[|s| - 10..] == word[|word| - 10..];
    } else if |word| == 8 {
      assert s[|s| - 10..] == ": " + word;
      assert (": " + word)[2..] == word && STARTING[2..] == "starting";
    } else {
      OnlyOneBlank(9 - |word|);
      assert |s| >= 10 ==> s[|s| - 10..][9 - |word|] == ' ';
    }
  }

  lemma OnlyOneBlank(i: nat)
    requires i < |STARTING| && i != 1
    ensures STARTING[i] != ' '
  {
  }

  /** For every container name the suffix test on the text agrees with the typed test,
      except for a container state that itself reads like one. */
  lemma SuffixMeansStarting(f: Failure)
    requires f.BadHealth? ==> f.health == "unhealthy" || f.health == "starting"
    ensures HasSuffix(Render(f), STARTING)
       <==> (f.BadHealth? && f.health == "starting")
            || (f.BadState? && (f.state == "starting" || HasSuffix(f.state, STARTING)))
  {
    var s := Render(f);
    match f {
      case BadState(n, w) => StartingEnding(n, w);
      case BadHealth(n, h) => StartingEnding(n, h); assert |"unhealthy"| == 9;
      case Changed(n) => assert s[|s| - 1] == 'n'; if HasSuffix(s, STARTING) { SuffixLast(s, STARTING); }
      case Gone(n) => assert s[|s| - 1] == 'n'; if HasSuffix(s, STARTING) { SuffixLast(s, STARTING); }
      case Restarted(n, k) => assert s[|s| - 1] == 'p'; if HasSuffix(s, STARTING) { SuffixLast(s, STARTING); }
    }
  }

  // ----- sorting -----

  /** Byte order of Go strings. */
  predicate Leq(a: string, b: string) {
    a == [] || (b != [] && (a[0] < b[0] || (a[0] == b[0] && Leq(a[1..], b[1..]))))
  }

  /** It is the order of the first difference; a prefix comes first. */
  lemma {:induction false} LeqIsFirstDifference(a: string, b: string)
    ensures Leq(a, b) <==> a <= b || exists i :: FirstDifference(a, b, i) && a[i] < b[i]
  {
    if a != [] && b != [] && a[0] == b[0] {
      LeqIsFirstDifference(a[1..], b[1..]);
      if i :| FirstDifference(a[1..], b[1..], i) && a[1..][i] < b[1..][i] {
        assert a[..i + 1] == [a[0]] + a[1..][..i] && b[..i + 1] == [b[0]] + b[1..][..i];
        assert FirstDifference(a, b, i + 1);
      }
      if i :| FirstDifference(a, b, i) && a[i] < b[i] {
        assert a[1..][..i - 1] == a[..i][1..] && b[1..][..i - 1] == b[..i][1..];
        assert FirstDifference(a[1..], b[1..], i - 1);
      }
      assert a <= b <==> a[1..] <= b[1..] by {
        assert a == [a[0]] + a[1..] && b == [b[0]] + b[1..];
      }
    } else if a != [] && b != [] {
      if a[0] < b[0] { assert FirstDifference(a, b, 0); }
      if i :| FirstDifference(a, b, i) && a[i] < b[i] {
        if i > 0 { assert a[..i][0] == b[..i][0]; }
      }
    }
  }

  predicate FirstDifference(a: string, b: string, i: int) {
    0 <= i < |a| && i < |b| && a[..i] == b[..i] && a[i] != b[i]
  }

  predicate Sorted(s: seq<string>) { forall i, j :: 0 <= i < j < |s| ==> Leq(s[i], s[j]) }

  lemma LeqTotal(a: string, b: string)
    ensures Leq(a, b) || Leq(b, a)
  {
    if a != [] && b != [] && a[0] == b[0] { LeqTotal(a[1..], b[1..]); }
  }

  lemma LeqTransitive(a: string, b: string, c: string)
    requires Leq(a, b) && Leq(b, c)
    ensures Leq(a, c)
  {
    if a != [] && b != [] && c != [] && a[0] == b[0] == c[0] { LeqTransitive(a[1..], b[1..], c[1..]); }
  }

  function Insert(x: string, s: seq<string>): (r: seq<string>)
    ensures multiset(r) == multiset(s) + multiset{x}
  {
    if s == [] then [x]
    else if Leq(x, s[0]) then [x] + s
    else
      assert s == [s[0]] + s[1..];
      [s[0]] + Insert(x, s[1..])
  }

  lemma {:induction false} InsertSorted(x: string, s: seq<string>)
    requires Sorted(s)
    ensures Sorted(Insert(x, s))
  {
    hide Leq;
    if s != [] {
      if Leq(x, s[0]) {
        forall i | 0 <= i < |s| ensures Leq(x, s[i]) {
          if i > 0 { LeqTransitive(x, s[0], s[i]); }
        }
      } else {
        LeqTotal(x, s[0]);
        InsertSorted(x, s[1..]);
        var r := Insert(x, s[1..]);
        forall i | 0 <= i < |r| ensures Leq(s[0], r[i]) {
          assert r[i] in multiset(r);
          if r[i] != x { assert r[i] in multiset(s[1..]); assert r[i] in s[1..]; }
        }
      }
    }
  }

  function Sort(s: seq<string>): (r: seq<string>)
    ensures multiset(r) == multiset(s)
  {
    if s == [] then []
    else
      assert s == s[..|s| - 1] + [s[|s| - 1]];
      Insert(s[|s| - 1], Sort(s[..|s| - 1]))
  }

  lemma {:induction false} SortSorted(s: seq<string>)
    ensures Sorted(Sort(s))
  {
    hide Leq;
    if s != [] {
      SortSorted(s[..|s| - 1]);
      InsertSorted(s[|s| - 1], Sort(s[..|s| - 1]));
    }
  }

  // ----- the failure list -----

  function Line(first: Sample, last: Sample, name: string): string {
    match Judge(first, last, name)
    case Fine => ""
    case Fails(f) => Render(f)
  }

  function LinesOf(first: Sample, last: Sample, names: seq<string>): (r: seq<string>)
    ensures |r| == |names|
  {
    seq(|names|, i requires 0 <= i < |names| => Line(first, last, names[i]))
  }

  ghost predicate Enumerates(names: seq<string>, s: set<string>) {
    (forall i, j :: 0 <= i < j < |names| ==> names[i] != names[j])
    && forall n :: n in names <==> n in s
  }

  lemma EnumeratesOneMore(names: seq<string>, s: set<string>, n: string)
    requires Enumerates(names, s) && n !in s
    ensures Enumerates(names + [n], s + {n})
  {
  }

  lemma EnumeratesNone()
    ensures Enumerates([], {})
  {
  }

  lemma LinesOneMore(first: Sample, last: Sample, names: seq<string>, n: string)
    ensures LinesOf(first, last, names + [n]) == LinesOf(first, last, names) + [Line(first, last, n)]
  {
    hide Line;
  }

  /** Failing containers of the later sample that are not in `todo`. */
  ghost function Present(first: Sample, last: Sample, todo: set<string>): set<string> {
    set n | n in FailingNames(first, last) && n in last && n !in todo
  }

  /** These, and the containers that disappeared and are not in `todo`. */
  ghost function PresentOrGone(first: Sample, last: Sample, todo: set<string>): set<string> {
    set n | n in FailingNames(first, last) && (n in last || n !in todo)
  }

  method JudgePresent(first: Sample, last: Sample) returns (failures: seq<string>, ghost names: seq<string>)
    ensures Enumerates(names, Present(first, last, {}))
    ensures failures == LinesOf(first, last, names)
  {
    hide Render;
    hide Judge;
    hide Enumerates;
    hide LinesOf;
    failures, names := [], [];
    var todo := last.Keys;
    EnumeratesNone();
    assert Present(first, last, todo) == {};
    while todo != {}
      invariant todo <= last.Keys
      invariant Enumerates(names, Present(first, last, todo))
      invariant failures == LinesOf(first, last, names)
      decreases todo
    {
      ghost var seen := Present(first, last, todo);
      var name :| name in todo;
      todo := todo - {name};
      match Judge(first, last, name) {
        case Fine =>
          assert Present(first, last, todo) == seen;
        case Fails(f) =>
          assert Present(first, last, todo) == seen + {name};
          EnumeratesOneMore(names, seen, name);
          LinesOneMore(first, last, names, name);
          failures := failures + [Render(f)];
          names := names + [name];
      }
    }
  }

  /** unstableUpdateServices: one line for every failing container, in sorted order,
      whatever order the two maps are walked in; `names` tells whose lines they are. */
  method UnstableUpdateServices(first: Sample, last: Sample) returns (failures: seq<string>, ghost names: seq<string>)
    ensures Enumerates(names, FailingNames(first, last))
    ensures multiset(failures) == multiset(LinesOf(first, last, names)) && Sorted(failures)
  {
    hide Render;
    hide Judge;
    hide Enumerates;
    hide LinesOf;
    failures, names := JudgePresent(first, last);
    var todo := first.Keys;
    assert PresentOrGone(first, last, todo) == Present(first, last, {});
    while todo != {}
      invariant todo <= first.Keys
      invariant Enumerates(names, PresentOrGone(first, last, todo))
      invariant failures == LinesOf(first, last, names)
      decreases todo
    {
      ghost var seen := PresentOrGone(first, last, todo);
      var name :| name in todo;
      todo := todo - {name};
      if name in last {
        assert PresentOrGone(first, last, todo) == seen;
      } else {
        JudgeGone(first, last, name);
        assert PresentOrGone(first, last, todo) == seen + {name};
        EnumeratesOneMore(names, seen, name);
        LinesOneMore(first, last, names, name);
        failures := failures + [name + ": disappeared during verification"];
        names := names + [name];
      }
    }
    assert PresentOrGone(first, last, {}) == FailingNames(first, last);
    SortSorted(failures);
    failures := Sort(failures);
  }

  // ----- the list does not depend on map order -----

  lemma LeqAntisymmetric(a: string, b: string)
    requires Leq(a, b) && Leq(b, a)
    ensures a == b
  {
    if a != [] && b != [] {
      LeqAntisymmetric(a[1..], b[1..]);
      assert a == [a[0]] + a[1..] && b == [b[0]] + b[1..];
    }
  }

  lemma LeastFirst(s: seq<string>, x: string)
    requires Sorted(s) && s != [] && x in multiset(s)
    ensures Leq(s[0], x)
  {
    hide Leq;
    assert x in s;
    var i :| 0 <= i < |s| && s[i] == x;
    if i == 0 { LeqTotal(x, x); }
  }

  lemma SameLeast(a: seq<string>, b: seq<string>)
    requires Sorted(a) && Sorted(b) && multiset(a) == multiset(b) && a != []
    ensures |a| == |b| && a[0] == b[0]
  {
    hide Leq;
    assert |multiset(a)| == |a| && |multiset(b)| == |b|;
    assert a[0] in multiset(a) && b[0] in multiset(b);
    LeastFirst(a, b[0]);
    LeastFirst(b, a[0]);
    LeqAntisymmetric(a[0], b[0]);
  }

  lemma RestBag(a: seq<string>)
    requires a != []
    ensures multiset(a[1..]) == multiset(a) - multiset{a[0]}
  {
    assert a == [a[0]] + a[1..];
  }

  lemma {:induction false} SortedUnique(a: seq<string>, b: seq<string>)
    requires Sorted(a) && Sorted(b) && multiset(a) == multiset(b)
    ensures a == b
  {
    hide Leq;
    assert |multiset(a)| == |a| && |multiset(b)| == |b|;
    if a != [] {
      SameLeast(a, b);
      RestBag(a);
      RestBag(b);
      SortedUnique(a[1..], b[1..]);
      assert a == [a[0]] + a[1..] && b == [b[0]] + b[1..];
    }
  }

  lemma {:induction false} LinesPermute(first: Sample, last: Sample, a: seq<string>, b: seq<string>, s: set<string>)
    requires Enumerates(a, s) && Enumerates(b, s)
    ensures multiset(LinesOf(first, last, a)) == multiset(LinesOf(first, last, b))
  {
    hide Line;
    EnumeratesCount(a, s);
    EnumeratesCount(b, s);
    if a != [] {
      var n := |a| - 1;
      var x := a[n];
      assert x in a;
      var j :| 0 <= j < |b| && b[j] == x;
      var b' := b[..j] + b[j + 1..];
      assert a == a[..n] + [x];
      DropOne(a, n, s);
      DropOne(b, j, s);
      assert a[..n] + a[n + 1..] == a[..n];
      LinesPermute(first, last, a[..n], b', s - {x});
      LinesDrop(first, last, a, n);
      LinesDrop(first, last, b, j);
    }
  }

  lemma {:induction false} EnumeratesCount(names: seq<string>, s: set<string>)
    requires Enumerates(names, s)
    ensures |names| == |s|
  {
    if names == [] {
      assert s == {};
    } else {
      DropOne(names, 0, s);
      assert names[0] in s;
      EnumeratesCount(names[..0] + names[1..], s - {names[0]});
    }
  }

  lemma DropOne(names: seq<string>, j: nat, s: set<string>)
    requires Enumerates(names, s) && j < |names|
    ensures Enumerates(names[..j] + names[j + 1..], s - {names[j]})
  {
    var r := names[..j] + names[j + 1..];
    forall n ensures n in r <==> n in s - {names[j]} {
      if n in s - {names[j]} {
        var i :| 0 <= i < |names| && names[i] == n;
        assert r[if i < j then i else i - 1] == n;
      }
      if n in r {
        var i :| 0 <= i < |r| && r[i] == n;
        assert n == names[if i < j then i else i + 1];
      }
    }
  }

  lemma LinesConcat(first: Sample, last: Sample, a: seq<string>, b: seq<string>)
    ensures LinesOf(first, last, a + b) == LinesOf(first, last, a) + LinesOf(first, last, b)
  {
    hide Line;
  }

  lemma LinesDrop(first: Sample, last: Sample, names: seq<string>, j: nat)
    requires j < |names|
    ensures multiset(LinesOf(first, last, names))
         == multiset(LinesOf(first, last, names[..j] + names[j + 1..])) + multiset{Line(first, last, names[j])}
  {
    hide LinesOf;
    hide Line;
    var a, b := names[..j], names[j + 1..];
    assert names == a + [names[j]] + b;
    LinesConcat(first, last, a, b);
    LinesConcat(first, last, a + [names[j]], b);
    LinesOneMore(first, last, a, names[j]);
  }

  /** fs is the failure list of two samples. */
  ghost predicate Lists(first: Sample, last: Sample, fs: seq<string>) {
    Sorted(fs)
    && exists names :: Enumerates(names, FailingNames(first, last)) && multiset(fs) == multiset(LinesOf(first, last, names))
  }

  /** Two calls on the same samples list the same texts in the same order, however the
      maps were walked. */
  lemma FailureListUnique(first: Sample, last: Sample, f: seq<string>, g: seq<string>)
    requires Lists(first, last, f) && Lists(first, last, g)
    ensures f == g
  {
    hide Enumerates;
    hide LinesOf;
    hide Sorted;
    hide FailingNames;
    var n :| Enumerates(n, FailingNames(first, last)) && multiset(f) == multiset(LinesOf(first, last, n));
    var m :| Enumerates(m, FailingNames(first, last)) && multiset(g) == multiset(LinesOf(first, last, m));
    LinesPermute(first, last, n, m, FailingNames(first, last));
    SortedUnique(f, g);
  }

  lemma ListsBy(first: Sample, last: Sample, fs: seq<string>, names: seq<string>)
    requires Sorted(fs) && Enumerates(names, FailingNames(first, last)) && multiset(fs) == multiset(LinesOf(first, last, names))
    ensures Lists(first, last, fs)
  {
    hide Enumerates;
    hide LinesOf;
    hide Sorted;
    hide FailingNames;
  }

  lemma JudgeGone(first: Sample, last: Sample, name: string)
    requires name in first && name !in last
    ensures Judge(first, last, name) == Fails(Gone(name))
    ensures Render(Gone(name)) == name + ": disappeared during verification"
  {
  }

  method OnlyHealthStarting(failures: seq<string>) returns (b: bool)
    ensures b <==> failures != [] && forall f :: f in failures ==> HasSuffix(f, STARTING)
  {
    if |failures| == 0 {
      return false;
    }
    for i := 0 to |failures|
      invariant forall j :: 0 <= j < i ==> HasSuffix(failures[j], STARTING)
    {
      if !HasSuffix(failures[i], STARTING) {
        return false;
      }
    }
    return true;
  }

  /** The loop's test, on the texts. */
  predicate TextsStarting(first: Sample, last: Sample) {
    FailingNames(first, last) != {}
    && forall n :: n in FailingNames(first, last) ==> HasSuffix(Line(first, last, n), STARTING)
  }

  predicate FineIn(first: Sample, last: Sample, name: string) {
    && Steady(first, last, name)
    && (OneShotDone(last[name])
        || (last[name].state == "running" && last[name].health != "unhealthy" && last[name].health != "starting"))
  }

  predicate StartingIn(first: Sample, last: Sample, name: string) {
    Steady(first, last, name) && last[name].state == "running" && last[name].health == "starting"
  }

  /** The meaning it is after: the containers are the same, some are running with a health
      check that has not finished starting, and all the others are fine. */
  predicate OnlyStarting(first: Sample, last: Sample) {
    && first.Keys == last.Keys
    && (exists n :: n in last && StartingIn(first, last, n))
    && (forall n :: n in last ==> FineIn(first, last, n) || StartingIn(first, last, n))
  }

  /** No container state reads like a starting health check; Docker's seven states
      (created, running, paused, restarting, removing, exited, dead) do not. */
  predicate PlainStates(s: Sample) {
    forall n :: n in s ==> s[n].state != "starting" && !HasSuffix(s[n].state, STARTING)
  }

  lemma FailingIs(first: Sample, last: Sample, n: string)
    ensures n in FailingNames(first, last) <==> n in first.Keys + last.Keys && !FineIn(first, last, n)
    ensures Judge(first, last, n) == Fails(BadHealth(n, "starting")) <==> StartingIn(first, last, n)
  {
    JudgesExactly(first, last, n, BadHealth(n, "starting"));
  }

  lemma TextsMeanStarting(first: Sample, last: Sample)
    requires PlainStates(last)
    ensures TextsStarting(first, last) <==> OnlyStarting(first, last)
  {
    hide HasSuffix;
    hide Render;
    forall n ensures n in FailingNames(first, last) <==> n in first.Keys + last.Keys && !FineIn(first, last, n) {
      FailingIs(first, last, n);
    }
    forall n | n in FailingNames(first, last)
      ensures HasSuffix(Line(first, last, n), STARTING) <==> StartingIn(first, last, n)
    {
      FailingIs(first, last, n);
      SuffixMeansStarting(Judge(first, last, n).failure);
    }
    hide FailingNames;
    hide Line;
    hide PlainStates;
    forall n ensures !(FineIn(first, last, n) && StartingIn(first, last, n)) {
      NotBoth(first, last, n);
    }
    hide FineIn;
    hide StartingIn;
    if TextsStarting(first, last) {
      forall n | n in first.Keys + last.Keys ensures n in first && n in last {
        InBoth(first, last, n);
      }
      assert first.Keys == last.Keys;
    }
  }

  lemma NotBoth(first: Sample, last: Sample, n: string)
    ensures !(FineIn(first, last, n) && StartingIn(first, last, n))
  {
  }

  lemma InBoth(first: Sample, last: Sample, n: string)
    ensures FineIn(first, last, n) || StartingIn(first, last, n) ==> n in first && n in last
  {
  }

  lemma TextsStartingOfList(first: Sample, last: Sample, failures: seq<string>, names: seq<string>)
    requires Enumerates(names, FailingNames(first, last))
    requires multiset(failures) == multiset(LinesOf(first, last, names))
    ensures failures != [] <==> FailingNames(first, last) != {}
    ensures (failures != [] && forall f :: f in failures ==> HasSuffix(f, STARTING)) <==> TextsStarting(first, last)
  {
    hide HasSuffix;
    hide FailingNames;
    hide Line;
    var ls := LinesOf(first, last, names);
    assert |multiset(failures)| == |failures| && |multiset(ls)| == |ls|;
    assert forall f :: f in failures <==> f in multiset(failures);
    assert forall f :: f in ls <==> f in multiset(ls);
    if names == [] {
      assert FailingNames(first, last) == {};
    } else {
      assert names[0] in FailingNames(first, last);
    }
    assert forall i :: 0 <= i < |names| ==> ls[i] == Line(first, last, names[i]) && ls[i] in ls;
  }

  // ----- the polling loop -----

  const SETTLE := 30
  const POLL := 10
  const HEALTH_WAIT := 300

  /** A container that is beyond recovery in the very first sample. */
  predicate Conclusive(c: ServiceState) {
    c.state == "restarting" || c.state == "dead" || c.state == "paused" || (c.state == "exited" && c.exitCode != 0)
  }

  predicate Doomed(first: Sample) { exists n :: n in first && Conclusive(first[n]) }

  /** What is beyond recovery. */
  lemma DoomedExactly(first: Sample)
    ensures Doomed(first) <==>
      exists n :: n in first && (first[n].state in ["restarting", "dead", "paused"]
                                 || (first[n].state == "exited" && first[n].exitCode != 0))
  {
  }

  /** The early exit always has something to report. */
  lemma DoomedListsFailure(first: Sample)
    requires Doomed(first)
    ensures FailingNames(first, first) != {}
  {
    var n :| n in first && Conclusive(first[n]);
    assert Judge(first, first, n).Fails?;
    assert n in FailingNames(first, first);
  }

  datatype Outcome = Outcome(success: bool, exitCode: int, listed: seq<string>, error: string)

  /** Sample i, the i-th after the first, is the one the loop stops at: every earlier
      one showed only starting health checks, and it fails to be polled, shows something
      else, or exhausts the waiting time. */
  predicate StopsAt(env: nat -> Poll, first: Sample, i: nat) {
    && 1 <= i <= 28
    && (forall j :: 1 <= j < i ==> env(j).Sampled? && TextsStarting(first, env(j).sample))
    && (env(i).Failed? || !TextsStarting(first, env(i).sample) || i == 28)
  }

  /** The same, over the two samples. */
  predicate StopsWhen(env: nat -> Poll, first: Sample, i: nat) {
    && 1 <= i <= 28
    && (forall j :: 1 <= j < i ==> env(j).Sampled? && OnlyStarting(first, env(j).sample))
    && (env(i).Failed? || !OnlyStarting(first, env(i).sample) || i == 28)
  }

  /** With Docker's states the loop stops at the first sample that is not merely waiting for
      health checks. */
  lemma StopsExactly(env: nat -> Poll, first: Sample, i: nat)
    requires forall j :: 1 <= j <= i && env(j).Sampled? ==> PlainStates(env(j).sample)
    ensures StopsAt(env, first, i) <==> StopsWhen(env, first, i)
  {
    hide TextsStarting;
    hide OnlyStarting;
    hide PlainStates;
    forall j | 1 <= j <= i && env(j).Sampled?
      ensures TextsStarting(first, env(j).sample) <==> OnlyStarting(first, env(j).sample)
    {
      TextsMeanStarting(first, env(j).sample);
    }
  }

  /** verifyUpdateServices against any environment: `env(i)` answers the i-th poll. It
      needs at most 27 polls beyond the two basic ones and waits at most five minutes;
      it succeeds exactly when the sample it stops at is stable. */
  method VerifyUpdateServices(env: nat -> Poll) returns (o: Outcome, polls: nat, waited: nat)
    ensures 1 <= polls <= 2 + 27 && waited <= 300
    ensures o.exitCode == (if o.success then 0 else 1)
    ensures env(0).Failed? ==> polls == 1 && waited == 0 && !o.success && o.error == env(0).error
    ensures env(0).Sampled? && Doomed(env(0).sample) ==>
      polls == 1 && waited == 0 && !o.success && o.listed != [] && Lists(env(0).sample, env(0).sample, o.listed)
    ensures env(0).Sampled? && !Doomed(env(0).sample) ==>
      && StopsAt(env, env(0).sample, polls - 1)
      && ((forall j :: 1 <= j < polls && env(j).Sampled? ==> PlainStates(env(j).sample)) ==>
            StopsWhen(env, env(0).sample, polls - 1))
      && waited == 30 + 10 * (polls - 2)
      && (o.success <==> env(polls - 1).Sampled? && Stable(env(0).sample, env(polls - 1).sample))
      && (env(polls - 1).Failed? ==> o.error == env(polls - 1).error)
      && (env(polls - 1).Sampled? && !o.success ==>
          o.error == "" && o.listed != []
          && Lists(env(0).sample, env(polls - 1).sample,
                   if TextsStarting(env(0).sample, env(polls - 1).sample) then o.listed[..|o.listed| - 1] else o.listed))
  {
    hide TextsStarting;
    hide FailingNames;
    hide Stable;
    hide Judge;
    hide Lists;
    hide StopsAt;
    hide StopsWhen;
    hide PlainStates;
    waited, polls := 0, 1;
    o := Outcome(false, 1, [], "");
    if env(0).Failed? {
      o := o.(error := env(0).error);
      return;
    }
    var first := env(0).sample;
    var todo := first.Keys;
    while todo != {}
      invariant todo <= first.Keys
      invariant forall n :: n in first && n !in todo ==> !Conclusive(first[n])
      decreases todo
    {
      var n :| n in todo;
      todo := todo - {n};
      if Conclusive(first[n]) {
        var listed, names := UnstableUpdateServices(first, first);
        DoomedListsFailure(first);
        TextsStartingOfList(first, first, listed, names);
        ListsBy(first, first, listed, names);
        o := o.(listed := listed);
        return;
      }
    }
    waited := SETTLE;
    var answer := env(1);
    polls := 2;
    var starting := false;
    var failures: seq<string> := [];
    if answer.Sampled? {
      failures, starting := Check(first, answer.sample);
    }
    while answer.Sampled? && waited < HEALTH_WAIT && starting
      invariant 2 <= polls <= 29 && waited == SETTLE + POLL * (polls - 2)
      invariant answer == env(polls - 1)
      invariant forall j :: 1 <= j < polls - 1 ==> env(j).Sampled? && TextsStarting(first, env(j).sample)
      invariant answer.Sampled? ==> starting == TextsStarting(first, answer.sample)
      invariant answer.Sampled? ==> (failures == [] <==> Stable(first, answer.sample)) && Lists(first, answer.sample, failures)
      decreases 29 - polls
    {
      waited := waited + POLL;
      answer := env(polls);
      polls := polls + 1;
      if answer.Sampled? {
        failures, starting := Check(first, answer.sample);
      }
    }
    StoppedHere(env, first, polls - 1);
    if answer.Failed? {
      o := o.(error := answer.error);
    } else if |failures| > 0 {
      if starting {
        ghost var listed := failures;
        failures := failures + ["healthcheck still starting after " + Decimal(waited) + "s"];
        assert failures[..|failures| - 1] == listed;
      }
      o := o.(listed := failures);
    } else {
      o := Outcome(true, 0, [], "");
    }
  }

  lemma StoppedHere(env: nat -> Poll, first: Sample, i: nat)
    requires 1 <= i <= 28
    requires forall j :: 1 <= j < i ==> env(j).Sampled? && TextsStarting(first, env(j).sample)
    requires env(i).Failed? || !TextsStarting(first, env(i).sample) || i == 28
    ensures StopsAt(env, first, i)
    ensures (forall j :: 1 <= j <= i && env(j).Sampled? ==> PlainStates(env(j).sample)) ==> StopsWhen(env, first, i)
  {
    hide TextsStarting;
    hide StopsWhen;
    hide PlainStates;
    if forall j :: 1 <= j <= i && env(j).Sampled? ==> PlainStates(env(j).sample) {
      StopsExactly(env, first, i);
    }
  }

  method Check(first: Sample, last: Sample) returns (failures: seq<string>, starting: bool)
    ensures failures == [] <==> Stable(first, last)
    ensures starting == TextsStarting(first, last)
    ensures Lists(first, last, failures)
  {
    hide TextsStarting;
    hide Stable;
    ghost var names;
    failures, names := UnstableUpdateServices(first, last);
    TextsStartingOfList(first, last, failures, names);
    StableIsNoFailure(first, last);
    starting := OnlyHealthStarting(failures);
  }
}
