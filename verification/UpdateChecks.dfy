/** Registry update checks: one project's scan, keeping earlier results when a scan
    fails, the fleet-wide scan that stops at a rate limit, and its cooldown. */
module UpdateChecks {
  import opened Basics

  datatype Image = Image(
    project: string,
    service: string,
    image: string,
    localDigest: string,
    remoteDigest: string,
    status: string,
    updateAvailable: bool,
    error: string,
    checkedAt: Instant)

  datatype Message = NoMessage | RegistryLimited | CoolingDown(remaining: int) | NothingScheduled

  datatype Status = Status(
    checked: bool,
    available: bool,
    count: int,
    checkedAt: Option<Instant>,
    refreshAllowedAt: Option<Instant>,
    cached: bool,
    retryAfterSeconds: int,
    message: Message,
    error: string,
    images: seq<Image>,
    registryImages: int,
    skippedServices: int)

  const UNCHECKED := Status(false, false, 0, None, None, false, 0, NoMessage, "", [], 0, 0)
  const CHECKED := UNCHECKED.(checked := true)

  function LowerChar(c: char): char { if 'A' <= c <= 'Z' then c + ' ' else c }

  function Lower(s: string): string { seq(|s|, i requires 0 <= i < |s| => LowerChar(s[i])) }

  predicate Contains(s: string, sub: string) {
    exists i :: 0 <= i <= |s| && sub <= s[i..]
  }

  /** IsRegistryRateLimitError. */
  predicate RateLimited(message: string) {
    var m := Lower(message);
    Contains(m, "toomanyrequests") || Contains(m, "too many requests") || Contains(m, "rate limit")
    || Contains(m, "retry-after") || Contains(m, "status code: 429") || Contains(m, "status 429")
  }

  const MARKERS := ["toomanyrequests", "too many requests", "rate limit", "retry-after", "status code: 429", "status 429"]

  /** The same letters, capital or not. */
  predicate CaseBlind(a: string, b: string) {
    |a| == |b| && forall i :: 0 <= i < |a| ==> a[i] == b[i] || ('A' <= a[i] <= 'Z' && b[i] == a[i] + ('a' - 'A'))
  }

  /** Marker m stands at place i of s. */
  predicate MarkedAt(s: string, m: string, i: nat) { i + |m| <= |s| && CaseBlind(s[i..i + |m|], m) }

  predicate NoCapitals(m: string) { forall k :: 0 <= k < |m| ==> !('A' <= m[k] <= 'Z') }

  lemma LowerIs(s: string, i: nat, m: string)
    requires i <= |s| && NoCapitals(m)
    ensures m <= Lower(s)[i..] <==> MarkedAt(s, m, i)
  {
    var l := Lower(s)[i..];
    if i + |m| <= |s| {
      var x := s[i..i + |m|];
      assert forall k :: 0 <= k < |m| ==> x[k] == s[i + k] && l[k] == LowerChar(x[k]);
      if CaseBlind(x, m) {
        assert l[..|m|] == m;
      }
    }
  }

  lemma ContainsIs(s: string, m: string)
    requires NoCapitals(m)
    ensures Contains(Lower(s), m) <==> exists i: nat :: MarkedAt(s, m, i)
  {
    hide CaseBlind;
    if Contains(Lower(s), m) {
      var i :| 0 <= i <= |Lower(s)| && m <= Lower(s)[i..];
      LowerIs(s, i, m);
    }
    if i: nat :| MarkedAt(s, m, i) {
      LowerIs(s, i, m);
    }
  }

  lemma LimitIsMarker(s: string)
    ensures RateLimited(s) <==> exists m :: m in MARKERS && Contains(Lower(s), m)
    ensures forall m :: m in MARKERS ==> NoCapitals(m)
  {
    hide Contains;
    assert MARKERS == [MARKERS[0], MARKERS[1], MARKERS[2], MARKERS[3], MARKERS[4], MARKERS[5]];
  }

  /** A message is a rate limit exactly when one of six markers stands in it, at any place
      and in any letter case. */
  lemma RateLimitedExactly(s: string)
    ensures RateLimited(s) <==> exists m, i: nat :: m in MARKERS && MarkedAt(s, m, i)
  {
    LimitIsMarker(s);
    hide RateLimited;
    hide NoCapitals;
    hide Contains;
    hide MarkedAt;
    hide MARKERS;
    forall m | m in MARKERS ensures Contains(Lower(s), m) <==> exists i: nat :: MarkedAt(s, m, i) {
      ContainsIs(s, m);
    }
  }

  function CountAvailable(images: seq<Image>): (n: nat)
    ensures n <= |images|
  {
    if images == [] then 0
    else CountAvailable(images[..|images| - 1]) + (if images[|images| - 1].updateAvailable then 1 else 0)
  }

  /** The first error among the images, or "". */
  function FirstError(images: seq<Image>): string {
    if images == [] then ""
    else
      var e := FirstError(images[..|images| - 1]);
      if e != "" then e else images[|images| - 1].error
  }

  /** It counts the images with an update. */
  lemma {:induction false} CountIsSize(images: seq<Image>)
    ensures CountAvailable(images) == |set i | 0 <= i < |images| && images[i].updateAvailable|
  {
    var all := set i | 0 <= i < |images| && images[i].updateAvailable;
    if images == [] {
      assert all == {};
    } else {
      var n := |images| - 1;
      var init := set i | 0 <= i < n && images[..n][i].updateAvailable;
      CountIsSize(images[..n]);
      assert all == if images[n].updateAvailable then init + {n} else init;
    }
  }

  lemma NoImages()
    ensures CountAvailable([]) == 0 && FirstError([]) == ""
  {
  }

  lemma ImagesSnoc(images: seq<Image>, c: Image)
    ensures CountAvailable(images + [c]) == CountAvailable(images) + (if c.updateAvailable then 1 else 0)
    ensures FirstError(images + [c]) == if FirstError(images) != "" then FirstError(images) else c.error
  {
    assert (images + [c])[..|images|] == images;
  }

  // ----- one project -----

  datatype Source = Source(registry: bool, image: string)

  /** The comparisons of the registry images among the first n sources, in order. */
  function Checks(sources: seq<Source>, check: nat -> Image, n: nat): (images: seq<Image>)
    requires n <= |sources|
    ensures |images| <= n
  {
    if n == 0 then []
    else Checks(sources, check, n - 1)
         + (if sources[n - 1].registry && sources[n - 1].image != "" then [check(n - 1)] else [])
  }

  /** `at` lists, in order, the registry images among the first n sources. */
  ghost predicate Selects(at: seq<nat>, sources: seq<Source>, n: nat)
    requires n <= |sources|
  {
    && (forall i, j :: 0 <= i < j < |at| ==> at[i] < at[j])
    && (forall i :: i in at <==> 0 <= i < n && sources[i].registry && sources[i].image != "")
  }

  lemma SelectsMore(at: seq<nat>, sources: seq<Source>, n: nat)
    requires n < |sources| && Selects(at, sources, n)
    ensures Selects(if sources[n].registry && sources[n].image != "" then at + [n] else at, sources, n + 1)
  {
    var at' := at + [n];
    assert forall j :: 0 <= j < |at| ==> at[j] in at;
    assert forall i :: i in at' <==> i in at || i == n;
  }

  ghost predicate Compared(images: seq<Image>, at: seq<nat>, check: nat -> Image) {
    |images| == |at| && forall j :: 0 <= j < |at| ==> images[j] == check(at[j])
  }

  lemma ComparedMore(images: seq<Image>, at: seq<nat>, check: nat -> Image, n: nat)
    requires Compared(images, at, check)
    ensures Compared(images + [check(n)], at + [n], check)
  {
  }

  lemma NothingSelected(sources: seq<Source>, check: nat -> Image)
    ensures Selects([], sources, 0) && Compared(Checks(sources, check, 0), [], check)
  {
  }

  /** Which sources are compared: exactly those with a registry image, in order. */
  lemma {:induction false} ChecksAre(sources: seq<Source>, check: nat -> Image, n: nat) returns (at: seq<nat>)
    requires n <= |sources|
    ensures Selects(at, sources, n) && Compared(Checks(sources, check, n), at, check)
  {
    hide Selects;
    hide Compared;
    if n == 0 {
      at := [];
      NothingSelected(sources, check);
    } else {
      at := ChecksAre(sources, check, n - 1);
      ChecksStep(sources, check, n - 1);
      SelectsMore(at, sources, n - 1);
      ComparedMore(Checks(sources, check, n - 1), at, check, n - 1);
      hide Checks;
      at := if sources[n - 1].registry && sources[n - 1].image != "" then at + [n - 1] else at;
    }
  }

  lemma NoChecks(sources: seq<Source>, check: nat -> Image)
    ensures Checks(sources, check, 0) == []
  {
  }

  lemma ChecksStep(sources: seq<Source>, check: nat -> Image, i: nat)
    requires i < |sources|
    ensures Checks(sources, check, i + 1)
         == if sources[i].registry && sources[i].image != "" then Checks(sources, check, i) + [check(i)]
            else Checks(sources, check, i)
  {
  }

  /** The counters of a scan in progress agree with its images. */
  predicate CountsMatch(s: Status) {
    && s.registryImages == |s.images| && s.count == CountAvailable(s.images)
    && (s.available <==> s.count > 0)
    && s.error == FirstError(s.images)
  }

  /** Adds one comparison to a scan in progress. */
  method AddComparison(before: Status, c: Image) returns (status: Status)
    requires CountsMatch(before)
    ensures CountsMatch(status) && status.images == before.images + [c]
    ensures status.checked == before.checked && status.skippedServices == before.skippedServices
    ensures status.checkedAt == before.checkedAt
  {
    hide CountAvailable;
    hide FirstError;
    ImagesSnoc(before.images, c);
    status := before.(registryImages := before.registryImages + 1, images := before.images + [c]);
    if c.updateAvailable {
      status := status.(available := true, count := status.count + 1);
    }
    if c.error != "" && status.error == "" {
      status := status.(error := c.error);
    }
  }

  /** CheckProjectUpdates on a project's image sources; `check(i)` is the comparison of
      source i. The scan covers the sources up to `upto`: all of them, or those up to the
      first rate-limited image; the status reports the first error of all. */
  method CheckProjectUpdates(sources: seq<Source>, check: nat -> Image, now: Instant) returns (status: Status, upto: nat)
    ensures upto <= |sources| && status.images == Checks(sources, check, upto)
    ensures status.registryImages == |status.images| && status.skippedServices == upto - |status.images|
    ensures status.checked && status.count == CountAvailable(status.images)
    ensures status.available <==> status.count > 0
    ensures status.error == FirstError(status.images)
    ensures status.checkedAt == if status.images == [] then None else Some(now)
    ensures forall i :: 0 <= i < |status.images| - 1 ==> !RateLimited(status.images[i].error)
    ensures upto == |sources| || (status.images != [] && RateLimited(status.images[|status.images| - 1].error))
  {
    hide RateLimited;
    hide CountAvailable;
    hide FirstError;
    hide Checks;
    status, upto := CHECKED, 0;
    NoImages();
    NoChecks(sources, check);
    while upto < |sources|
      invariant upto <= |sources| && status.images == Checks(sources, check, upto)
      invariant CountsMatch(status) && status.skippedServices == upto - |status.images|
      invariant status.checked && status.checkedAt == None
      invariant forall j :: 0 <= j < |status.images| ==> !RateLimited(status.images[j].error)
    {
      var i := upto;
      ChecksStep(sources, check, i);
      upto := upto + 1;
      if !sources[i].registry || sources[i].image == "" {
        status := status.(skippedServices := status.skippedServices + 1);
        continue;
      }
      var c := check(i);
      status := AddComparison(status, c);
      if RateLimited(c.error) {
        break;
      }
    }
    if |status.images| > 0 {
      status := status.(checkedAt := Some(now));
    }
  }

  lemma {:induction false} FirstErrorIs(images: seq<Image>, i: nat)
    requires i < |images| && images[i].error != "" && forall j :: 0 <= j < i ==> images[j].error == ""
    ensures FirstError(images) == images[i].error
  {
    if i < |images| - 1 {
      FirstErrorIs(images[..|images| - 1], i);
    } else {
      NoFirstError(images[..i]);
    }
  }

  lemma {:induction false} NoFirstError(images: seq<Image>)
    requires forall j :: 0 <= j < |images| ==> images[j].error == ""
    ensures FirstError(images) == ""
  {
    if images != [] { NoFirstError(images[..|images| - 1]); }
  }

  lemma EmptyNotLimited()
    ensures !RateLimited("")
  {
    assert Lower("") == "";
  }

  /** When a scan hits a rate limit, its status says so exactly when no ordinary error
      came before: otherwise the limit is masked by the earlier error. */
  lemma LimitShownUnlessMasked(images: seq<Image>)
    requires images != [] && RateLimited(images[|images| - 1].error)
    requires forall i :: 0 <= i < |images| - 1 ==> !RateLimited(images[i].error)
    ensures RateLimited(FirstError(images)) <==> forall i :: 0 <= i < |images| - 1 ==> images[i].error == ""
  {
    EmptyNotLimited();
    hide RateLimited;
    var n := |images| - 1;
    if forall i :: 0 <= i < n ==> images[i].error == "" {
      FirstErrorIs(images, n);
    } else {
      var i := FirstErroring(images, n);
      FirstErrorIs(images, i);
    }
  }

  lemma FirstErroring(images: seq<Image>, n: nat) returns (i: nat)
    requires n <= |images| && exists j :: 0 <= j < n && images[j].error != ""
    ensures i < n && images[i].error != "" && forall j :: 0 <= j < i ==> images[j].error == ""
  {
    i := 0;
    while images[i].error == ""
      invariant i < n && forall j :: 0 <= j < i ==> images[j].error == ""
      decreases n - i
    {
      i := i + 1;
    }
  }

  // ----- keeping earlier results -----

  function Key(i: Image): string { i.service + ['\0'] + i.image }

  predicate HasKey(images: seq<Image>, k: string) { exists i :: 0 <= i < |images| && Key(images[i]) == k }

  ghost predicate UniqueKeys(images: seq<Image>) {
    forall i, j :: 0 <= i < j < |images| ==> Key(images[i]) != Key(images[j])
  }

  /** previousByImage: the last image of each key. */
  function ByKey(images: seq<Image>): map<string, Image> {
    if images == [] then map[] else ByKey(images[..|images| - 1])[Key(images[|images| - 1]) := images[|images| - 1]]
  }

  /** A failed check keeps what was known before, with the new error beside it. */
  function Refill(before: map<string, Image>, i: Image): Image {
    if i.error != "" && Key(i) in before
    then before[Key(i)].(project := i.project, service := i.service, image := i.image, error := i.error)
    else i
  }

  function RefillAll(before: map<string, Image>, images: seq<Image>): (r: seq<Image>)
    ensures |r| == |images|
  {
    seq(|images|, i requires 0 <= i < |images| => Refill(before, images[i]))
  }

  /** Earlier images the interrupted scan never reached, without their old errors. */
  function Unseen(before: seq<Image>, images: seq<Image>): (r: seq<Image>) {
    if before == [] then []
    else
      var r := Unseen(before[..|before| - 1], images);
      var i := before[|before| - 1];
      if HasKey(images, Key(i)) then r else r + [i.(error := "")]
  }

  function Cleared(images: seq<Image>, error: string): (r: seq<Image>)
    ensures |r| == |images|
  {
    seq(|images|, i requires 0 <= i < |images| => images[i].(error := if i == 0 then error else ""))
  }

  function Tallied(s: Status, images: seq<Image>): Status {
    s.(images := images, checked := true, cached := true,
       available := CountAvailable(images) > 0, count := CountAvailable(images))
  }

  function Preserved(previous: Status, current: Status): Status {
    if current.error == "" || !previous.checked || previous.images == [] then current
    else if current.images == [] then
      Tallied(current.(registryImages := previous.registryImages, skippedServices := previous.skippedServices),
              Cleared(previous.images, current.error))
    else if RateLimited(current.error) then
      Tallied(current.(registryImages := previous.registryImages, skippedServices := previous.skippedServices),
              RefillAll(ByKey(previous.images), current.images) + Unseen(previous.images, current.images))
    else Tallied(current, RefillAll(ByKey(previous.images), current.images))
  }

  method PreservePreviousUpdateResults(previous: Status, current: Status) returns (r: Status)
    ensures r == Preserved(previous, current)
  {
    hide RateLimited;
    hide HasKey;
    hide Tallied;
    hide RefillAll;
    hide Unseen;
    hide Cleared;
    r := current;
    if current.error == "" || !previous.checked || |previous.images| == 0 {
      return;
    }
    var before: map<string, Image> := map[];
    for i := 0 to |previous.images|
      invariant before == ByKey(previous.images[..i])
    {
      assert previous.images[..i + 1][..i] == previous.images[..i];
      before := before[Key(previous.images[i]) := previous.images[i]];
    }
    assert previous.images[..|previous.images|] == previous.images;
    var images := current.images;
    if |images| == 0 {
      images := ClearErrors(previous.images, current.error);
      r := r.(registryImages := previous.registryImages, skippedServices := previous.skippedServices);
    } else {
      var seen;
      images, seen := RefillLoop(before, images);
      if RateLimited(current.error) {
        images := AppendUnseen(previous.images, current.images, images, seen);
        r := r.(registryImages := previous.registryImages, skippedServices := previous.skippedServices);
      }
    }
    r := Tally(r, images);
  }

  method Tally(s: Status, images: seq<Image>) returns (r: Status)
    ensures r == Tallied(s, images)
  {
    var available, count := false, 0;
    for i := 0 to |images|
      invariant count == CountAvailable(images[..i]) && available == (count > 0)
    {
      assert images[..i + 1][..i] == images[..i];
      if images[i].updateAvailable {
        available, count := true, count + 1;
      }
    }
    assert images[..|images|] == images;
    r := s.(images := images, checked := true, cached := true, available := available, count := count);
  }

  method ClearErrors(before: seq<Image>, error: string) returns (images: seq<Image>)
    requires |before| > 0
    ensures images == Cleared(before, error)
  {
    images := before;
    for i := 0 to |images|
      invariant |images| == |before|
      invariant forall j :: 0 <= j < i ==> images[j] == before[j].(error := "")
      invariant forall j :: i <= j < |images| ==> images[j] == before[j]
    {
      images := images[i := images[i].(error := "")];
    }
    images := images[0 := images[0].(error := error)];
  }

  method RefillLoop(before: map<string, Image>, current: seq<Image>) returns (images: seq<Image>, seen: set<string>)
    ensures images == RefillAll(before, current)
    ensures forall k :: k in seen <==> HasKey(current, k)
  {
    images, seen := current, {};
    for i := 0 to |current|
      invariant |images| == |current|
      invariant forall j :: 0 <= j < i ==> images[j] == Refill(before, current[j])
      invariant forall j :: i <= j < |current| ==> images[j] == current[j]
      invariant forall k :: k in seen <==> HasKey(current[..i], k)
    {
      var failed := images[i];
      HasKeySnoc(current, i);
      seen := seen + {Key(failed)};
      if failed.error == "" {
        continue;
      }
      if Key(failed) in before {
        images := images[i := before[Key(failed)].(project := failed.project, service := failed.service,
                                                   image := failed.image, error := failed.error)];
      }
    }
    assert current[..|current|] == current;
  }

  lemma HasKeySnoc(images: seq<Image>, i: nat)
    requires i < |images|
    ensures forall k :: HasKey(images[..i + 1], k) <==> HasKey(images[..i], k) || k == Key(images[i])
  {
    hide Key;
    forall k ensures HasKey(images[..i + 1], k) <==> HasKey(images[..i], k) || k == Key(images[i]) {
      assert images[..i + 1][i] == images[i];
      if HasKey(images[..i], k) {
        var j :| 0 <= j < i && Key(images[..i][j]) == k;
        assert Key(images[..i + 1][j]) == k;
      }
      if HasKey(images[..i + 1], k) {
        var j :| 0 <= j < i + 1 && Key(images[..i + 1][j]) == k;
        if j < i { assert Key(images[..i][j]) == k; }
      }
    }
  }

  method AppendUnseen(before: seq<Image>, current: seq<Image>, start: seq<Image>, seen: set<string>) returns (images: seq<Image>)
    requires forall k :: k in seen <==> HasKey(current, k)
    ensures images == start + Unseen(before, current)
  {
    hide HasKey;
    images := start;
    for i := 0 to |before|
      invariant images == start + Unseen(before[..i], current)
    {
      assert before[..i + 1][..i] == before[..i];
      if Key(before[i]) in seen {
        continue;
      }
      images := images + [before[i].(error := "")];
    }
    assert before[..|before|] == before;
  }

  // ----- what merging old and new results guarantees -----

  /** Same finding, possibly with a newer error beside it. */
  predicate SameNotice(a: Image, b: Image) {
    a.localDigest == b.localDigest && a.remoteDigest == b.remoteDigest && a.status == b.status
    && a.updateAvailable == b.updateAvailable && a.checkedAt == b.checkedAt
    && Key(a) == Key(b)
  }

  lemma {:induction false} ByKeyLast(images: seq<Image>, i: nat)
    requires i < |images| && forall j :: i < j < |images| ==> Key(images[j]) != Key(images[i])
    ensures Key(images[i]) in ByKey(images) && ByKey(images)[Key(images[i])] == images[i]
  {
    hide Key;
    if i < |images| - 1 { ByKeyLast(images[..|images| - 1], i); }
  }

  lemma {:induction false} UnseenAt(before: seq<Image>, images: seq<Image>, i: nat) returns (j: nat)
    requires i < |before| && !HasKey(images, Key(before[i]))
    ensures j < |Unseen(before, images)| && Unseen(before, images)[j] == before[i].(error := "")
  {
    hide Key;
    hide HasKey;
    var n := |before| - 1;
    if i == n {
      j := |Unseen(before, images)| - 1;
    } else {
      j := UnseenAt(before[..n], images, i);
    }
  }

  /** Image i of the earlier results is still listed: with its finding, or as a fresh check
      of the same image that succeeded. */
  ghost predicate StillListed(previous: Status, current: Status, i: nat)
    requires i < |previous.images|
  {
    ListedIn(previous.images[i], current, Preserved(previous, current))
  }

  ghost predicate ListedIn(p: Image, current: Status, r: Status) { exists j: nat :: Lists(p, current, r, j) }

  predicate Lists(p: Image, current: Status, r: Status, j: nat) {
    && j < |r.images|
    && (SameNotice(r.images[j], p)
        || (j < |current.images| && current.images[j].error == "" && r.images[j] == current.images[j] && Key(r.images[j]) == Key(p)))
  }

  /** Which earlier notices survive a scan with an error, exactly: all of them when it listed
      nothing or reports a rate limit, and otherwise those of the images it listed. */
  lemma NoticesKeptExactly(previous: Status, current: Status, i: nat)
    requires previous.checked && UniqueKeys(previous.images) && i < |previous.images| && current.error != ""
    ensures StillListed(previous, current, i)
       <==> current.images == [] || RateLimited(current.error) || HasKey(current.images, Key(previous.images[i]))
  {
    hide RateLimited;
    hide Lists;
    var p := previous.images[i];
    var r := Preserved(previous, current);
    if current.images == [] || RateLimited(current.error) || HasKey(current.images, Key(p)) {
      var j := WhereListed(previous, current, i);
      assert Lists(p, current, r, j);
    } else {
      forall j: nat ensures !Lists(p, current, r, j) {
        if Lists(p, current, r, j) {
          ListsKey(p, current, r, j);
          RefillKey(ByKey(previous.images), current.images[j]);
          assert false;
        }
      }
    }
  }

  lemma ListsKey(p: Image, current: Status, r: Status, j: nat)
    requires Lists(p, current, r, j)
    ensures j < |r.images| && Key(r.images[j]) == Key(p)
  {
  }

  lemma WhereListed(previous: Status, current: Status, i: nat) returns (j: nat)
    requires previous.checked && UniqueKeys(previous.images) && i < |previous.images| && current.error != ""
    requires current.images == [] || RateLimited(current.error) || HasKey(current.images, Key(previous.images[i]))
    ensures Lists(previous.images[i], current, Preserved(previous, current), j)
  {
    hide RateLimited;
    var p := previous.images[i];
    if current.images == [] {
      j := i;
    } else if HasKey(current.images, Key(p)) {
      j :| 0 <= j < |current.images| && Key(current.images[j]) == Key(p);
      ByKeyLast(previous.images, i);
    } else {
      var u := UnseenAt(previous.images, current.images, i);
      j := |current.images| + u;
    }
  }

  /** No lost notices: when the scan reports a rate limit, every image known before is still
      listed; under the same service and image name, when service names hold no NUL. */
  lemma NoLostNotices(previous: Status, current: Status, i: nat) returns (j: nat)
    requires previous.checked && UniqueKeys(previous.images) && i < |previous.images|
    requires RateLimited(current.error)
    ensures var p, r := previous.images[i], Preserved(previous, current);
            && Lists(p, current, r, j)
            && ('\0' !in p.service && '\0' !in r.images[j].service ==>
                  r.images[j].service == p.service && r.images[j].image == p.image)
  {
    EmptyNotLimited();
    hide RateLimited;
    hide Preserved;
    j := WhereListed(previous, current, i);
    var p, kept := previous.images[i], Preserved(previous, current).images[j];
    if '\0' !in p.service && '\0' !in kept.service {
      KeyNames(p, kept);
    }
  }

  /** Keys tell images apart by service and image name. */
  lemma KeyNames(a: Image, b: Image)
    requires Key(a) == Key(b) && '\0' !in a.service && '\0' !in b.service
    ensures a.service == b.service && a.image == b.image
  {
    var k, m, n := Key(a), |a.service|, |b.service|;
    assert k[m] == '\0' && k[n] == '\0';
    assert forall i :: 0 <= i < m ==> k[i] == a.service[i];
    assert forall i :: 0 <= i < n ==> k[i] == b.service[i];
    assert m == n;
    assert k[..m] == a.service && k[..n] == b.service;
    assert k[m + 1..] == a.image && k[n + 1..] == b.image;
  }

  /** A rate limit behind an ordinary error loses notices: the scan stopped before image c,
      the status names the ordinary error, and c is not listed any more; nor does the fleet
      scan stop. */
  lemma MaskedLimitLosesNotice(a: Image, b: Image, c: Image, previous: Status, current: Status)
    requires a.error != "" && !RateLimited(a.error) && RateLimited(b.error)
    requires Key(a) != Key(c) && Key(b) != Key(c)
    requires previous.checked && previous.images == [c]
    requires current.images == [a, b] && current.error == FirstError(current.images)
    ensures !RateLimited(current.error) && !StillListed(previous, current, 0)
    ensures !RateLimited(Preserved(previous, current).error)
  {
    FirstErrorIs(current.images, 0);
    NoticesKeptExactly(previous, current, 0);
    PreservedKeepsFresh(previous, current);
    hide RateLimited;
    hide StillListed;
  }

  /** A failed check keeps the earlier finding of its image, for any error. */
  lemma FailedKeepsFinding(previous: Status, current: Status, i: nat, j: nat)
    requires previous.checked && UniqueKeys(previous.images) && i < |previous.images| && current.error != ""
    requires j < |current.images| && current.images[j].error != "" && Key(current.images[j]) == Key(previous.images[i])
    ensures var r := Preserved(previous, current);
            j < |r.images| && SameNotice(r.images[j], previous.images[i]) && r.images[j].error == current.images[j].error
  {
    hide RateLimited;
    hide Unseen;
    ByKeyLast(previous.images, i);
    RefillKey(ByKey(previous.images), current.images[j]);
    assert Preserved(previous, current).images[j] == Refill(ByKey(previous.images), current.images[j]);
  }

  /** What never changes: a fresh success, every failure shown with its image, the
      project's error, and agreement of the counters. */
  lemma PreservedKeepsFresh(previous: Status, current: Status)
    ensures var r := Preserved(previous, current);
            && r.error == current.error
            && |r.images| >= |current.images|
            && (forall i :: 0 <= i < |current.images| && current.images[i].error == "" ==> r.images[i] == current.images[i])
            && (forall i :: 0 <= i < |current.images| ==>
                  r.images[i].error == current.images[i].error && r.images[i].project == current.images[i].project
                  && r.images[i].service == current.images[i].service && r.images[i].image == current.images[i].image)
            && (r != current && current.images == [] ==> r.images != [] && r.images[0].error == current.error)
            && (r != current ==> r.count == CountAvailable(r.images) && r.available == (r.count > 0) && r.checked && r.cached)
  {
    hide RateLimited;
    hide Key;
    hide CountAvailable;
    hide Unseen;
    hide Cleared;
    var r := Preserved(previous, current);
    if r != current && current.images != [] {
      forall i | 0 <= i < |current.images|
        ensures r.images[i] == Refill(ByKey(previous.images), current.images[i])
      {
      }
    }
    ClearedFirst(previous.images, current.error);
  }

  /** The parts of a merged status that the notices leave open: with nothing listed, the
      earlier images come back with the scan's error on the first one and no other; images
      the scan did not reach carry no error; and the source counts are the earlier ones exactly when the
      scan listed nothing or reports a rate limit. */
  lemma PreservedRest(previous: Status, current: Status)
    requires current.error != "" && previous.checked && previous.images != []
    ensures var r := Preserved(previous, current);
            && (current.images == [] ==>
                  |r.images| == |previous.images|
                  && forall i :: 0 <= i < |r.images| ==>
                       r.images[i] == previous.images[i].(error := if i == 0 then current.error else ""))
            && (current.images != [] ==> forall i :: |current.images| <= i < |r.images| ==> r.images[i].error == "")
            && (if current.images == [] || RateLimited(current.error)
                then r.registryImages == previous.registryImages && r.skippedServices == previous.skippedServices
                else r.registryImages == current.registryImages && r.skippedServices == current.skippedServices)
  {
    hide RateLimited;
    hide CountAvailable;
    UnseenHasNoError(previous.images, current.images);
    hide Unseen;
  }

  lemma {:induction false} UnseenHasNoError(before: seq<Image>, images: seq<Image>)
    ensures forall i :: 0 <= i < |Unseen(before, images)| ==> Unseen(before, images)[i].error == ""
  {
    hide HasKey;
    if before != [] { UnseenHasNoError(before[..|before| - 1], images); }
  }

  lemma ClearedFirst(images: seq<Image>, error: string)
    ensures images != [] ==> Cleared(images, error)[0].error == error
  {
  }

  lemma RefillKey(before: map<string, Image>, i: Image)
    ensures Key(Refill(before, i)) == Key(i) && Refill(before, i).error == i.error
    ensures Refill(before, Refill(before, i)) == Refill(before, i)
  {
  }

  lemma {:induction false} UnseenFacts(before: seq<Image>, images: seq<Image>, all: seq<Image>)
    requires forall i :: 0 <= i < |before| ==> HasKey(images, Key(before[i])) || HasKey(all, Key(before[i]))
    requires forall k :: HasKey(images, k) ==> HasKey(all, k)
    ensures forall i :: 0 <= i < |Unseen(before, images)| ==> Unseen(before, images)[i].error == ""
    ensures Unseen(before, all) == []
  {
    hide Key;
    hide HasKey;
    if before != [] { UnseenFacts(before[..|before| - 1], images, all); }
  }

  lemma RefillTwice(before: map<string, Image>, images: seq<Image>, extra: seq<Image>)
    requires forall i :: 0 <= i < |extra| ==> extra[i].error == ""
    ensures var r := RefillAll(before, images) + extra; RefillAll(before, r) == r
  {
    hide Key;
    var r := RefillAll(before, images) + extra;
    forall i | 0 <= i < |r| ensures Refill(before, r[i]) == r[i] {
      if i < |images| { RefillKey(before, images[i]); }
    }
  }

  lemma AllSeen(before: seq<Image>, images: seq<Image>)
    ensures var r := RefillAll(ByKey(before), images) + Unseen(before, images);
            (forall i :: 0 <= i < |before| ==> HasKey(images, Key(before[i])) || HasKey(r, Key(before[i])))
            && (forall k :: HasKey(images, k) ==> HasKey(r, k))
  {
    var refilled := RefillAll(ByKey(before), images);
    var r := refilled + Unseen(before, images);
    forall k | HasKey(images, k) ensures HasKey(r, k) {
      var j :| 0 <= j < |images| && Key(images[j]) == k;
      RefillKey(ByKey(before), images[j]);
      assert r[j] == refilled[j];
    }
    forall i | 0 <= i < |before| ensures HasKey(images, Key(before[i])) || HasKey(r, Key(before[i])) {
      if !HasKey(images, Key(before[i])) {
        var j := UnseenAt(before, images, i);
        assert r[|refilled| + j] == before[i].(error := "");
      }
    }
  }

  lemma ClearedTwice(before: seq<Image>, error: string)
    requires before != [] && UniqueKeys(before)
    ensures var c := Cleared(before, error);
            RefillAll(ByKey(before), c) == c && Unseen(before, c) == []
  {
    var c := Cleared(before, error);
    ByKeyLast(before, 0);
    forall i | 0 <= i < |before| ensures HasKey(c, Key(before[i])) {
      assert Key(c[i]) == Key(before[i]);
    }
    UnseenFacts(before, c, c);
  }

  /** Merging a second time with the same earlier results changes nothing, for any
      error. */
  lemma PreservedIdempotent(previous: Status, current: Status)
    requires UniqueKeys(previous.images)
    ensures Preserved(previous, Preserved(previous, current)) == Preserved(previous, current)
  {
    hide RateLimited;
    hide UniqueKeys;
    hide ByKey;
    hide RefillAll;
    hide Unseen;
    hide Cleared;
    hide CountAvailable;
    var before := previous.images;
    if current.error != "" && previous.checked && before != [] {
      if current.images == [] {
        ClearedTwice(before, current.error);
        assert Cleared(before, current.error) + [] == Cleared(before, current.error);
      } else {
        var refilled := RefillAll(ByKey(before), current.images);
        var extra := Unseen(before, current.images);
        AllSeen(before, current.images);
        UnseenFacts(before, current.images, refilled + extra);
        RefillTwice(ByKey(before), current.images, extra);
        RefillTwice(ByKey(before), current.images, []);
        assert refilled + [] == refilled;
        assert refilled + extra + [] == refilled + extra;
      }
    }
  }

  // ----- the fleet scan -----

  datatype Project = Project(name: string, inactive: bool, controller: bool, noUpdates: bool)

  /** eligibleForScheduledUpdateCheck together with the controller test before it. */
  predicate Eligible(p: Project, scheduled: set<string>) {
    !p.controller && !p.inactive && p.name in scheduled && !p.noUpdates
  }

  /** appendUpdateSummary. */
  function Append(summary: Status, s: Status): Status {
    if !s.checked then summary
    else summary.(
      registryImages := summary.registryImages + s.registryImages,
      skippedServices := summary.skippedServices + s.skippedServices,
      available := summary.available || s.available,
      count := if s.available then summary.count + s.count else summary.count,
      error := if s.error != "" && summary.error == "" then s.error else summary.error,
      checkedAt := if s.checkedAt.Some? && (summary.checkedAt.None? || s.checkedAt.value > summary.checkedAt.value)
                   then s.checkedAt else summary.checkedAt,
      images := summary.images + s.images)
  }

  function AppendAll(summary: Status, ss: seq<Status>): Status {
    if ss == [] then summary else Append(AppendAll(summary, ss[..|ss| - 1]), ss[|ss| - 1])
  }

  /** A fresh check of project i, merged with its stored result when it had an error. */
  function Fresh(store: map<string, Status>, name: string, check: Status): Status {
    if check.error != "" && name in store then Preserved(store[name], check) else check
  }

  datatype Fleet = Fleet(projects: seq<Project>, scheduled: set<string>, store: map<string, Status>, check: nat -> Status)

  predicate StopsFleet(f: Fleet, i: nat)
    requires i < |f.projects|
  {
    Eligible(f.projects[i], f.scheduled) && RateLimited(Fresh(f.store, f.projects[i].name, f.check(i)).error)
  }

  /** Merging with earlier results neither hides nor invents a stop: the fleet stops at
      a project exactly when that project's own scan reports the rate limit. */
  lemma StopIsTheChecks(f: Fleet, i: nat)
    requires i < |f.projects|
    ensures StopsFleet(f, i) <==> Eligible(f.projects[i], f.scheduled) && RateLimited(f.check(i).error)
  {
    hide RateLimited;
    if f.projects[i].name in f.store {
      PreservedKeepsFresh(f.store[f.projects[i].name], f.check(i));
    }
  }

  /** The first project whose status reports a rate limit, or the number of projects. */
  function StopIndex(f: Fleet, i: nat): (stop: nat)
    requires i <= |f.projects|
    ensures i <= stop <= |f.projects|
    ensures forall j :: i <= j < stop ==> !StopsFleet(f, j)
    ensures stop < |f.projects| ==> StopsFleet(f, stop)
    decreases |f.projects| - i
  {
    if i == |f.projects| || StopsFleet(f, i) then i else StopIndex(f, i + 1)
  }

  /** What project j contributes, given where the scan stopped: a fresh check up to the
      stop, the stored status after it. */
  function Contribution(f: Fleet, stop: nat, j: nat): seq<Status>
    requires j < |f.projects|
  {
    var p := f.projects[j];
    if !Eligible(p, f.scheduled) then []
    else if j <= stop then [Fresh(f.store, p.name, f.check(j))]
    else if p.name in f.store then [f.store[p.name]]
    else []
  }

  function Contributions(f: Fleet, stop: nat, n: nat): seq<Status>
    requires n <= |f.projects|
  {
    if n == 0 then [] else Contributions(f, stop, n - 1) + Contribution(f, stop, n - 1)
  }

  /** Project indices the registry was asked about. */
  function Asked(f: Fleet, stop: nat, n: nat): (r: seq<nat>)
    requires n <= |f.projects|
    ensures forall i :: 0 <= i < |r| ==> r[i] < n && r[i] <= stop && Eligible(f.projects[r[i]], f.scheduled)
  {
    if n == 0 then []
    else Asked(f, stop, n - 1) + (if Eligible(f.projects[n - 1], f.scheduled) && n - 1 <= stop then [n - 1] else [])
  }

  lemma AppendSnoc(summary: Status, ss: seq<Status>, s: Status)
    ensures AppendAll(summary, ss + [s]) == Append(AppendAll(summary, ss), s)
  {
    hide Append;
    assert (ss + [s])[..|ss|] == ss;
  }

  lemma ContributionsStep(f: Fleet, stop: nat, j: nat)
    requires j < |f.projects|
    ensures AppendAll(CHECKED, Contributions(f, stop, j + 1)) ==
      if Contribution(f, stop, j) == [] then AppendAll(CHECKED, Contributions(f, stop, j))
      else Append(AppendAll(CHECKED, Contributions(f, stop, j)), Contribution(f, stop, j)[0])
  {
    hide Append;
    hide AppendAll;
    hide Preserved;
    hide RateLimited;
    var c := Contribution(f, stop, j);
    if c == [] {
      assert Contributions(f, stop, j) + c == Contributions(f, stop, j);
    } else {
      assert c == [c[0]];
      AppendSnoc(CHECKED, Contributions(f, stop, j), c[0]);
    }
  }

  /** The stored statuses after the first n projects: fresh results up to the stop, and
      the controller's stale notice cleared; nothing is written after the stop. */
  function Saved(f: Fleet, stop: nat, n: nat): map<string, Status>
    requires n <= |f.projects|
  {
    if n == 0 then f.store
    else
      var m := Saved(f, stop, n - 1);
      var p := f.projects[n - 1];
      if n - 1 > stop then m
      else if p.controller then m[p.name := UNCHECKED]
      else if Eligible(p, f.scheduled) then m[p.name := Fresh(f.store, p.name, f.check(n - 1))]
      else m
  }

  lemma {:induction false} NothingSavedAfter(f: Fleet, stop: nat, n: nat)
    requires stop < n <= |f.projects|
    ensures Saved(f, stop, n) == Saved(f, stop, stop + 1)
  {
    hide Fresh;
    if stop + 1 < n { NothingSavedAfter(f, stop, n - 1); }
  }

  function Total(ss: seq<Status>, part: Status -> int): int {
    if ss == [] then 0
    else Total(ss[..|ss| - 1], part) + (if ss[|ss| - 1].checked then part(ss[|ss| - 1]) else 0)
  }

  function AllImages(ss: seq<Status>): seq<Image> {
    if ss == [] then []
    else AllImages(ss[..|ss| - 1]) + (if ss[|ss| - 1].checked then ss[|ss| - 1].images else [])
  }

  /** The error of the first checked contribution that has one. */
  ghost predicate FirstErrorOf(ss: seq<Status>, error: string) {
    if error == "" then forall i :: 0 <= i < |ss| && ss[i].checked ==> ss[i].error == ""
    else exists i :: 0 <= i < |ss| && ss[i].checked && ss[i].error == error
                     && forall j :: 0 <= j < i && ss[j].checked ==> ss[j].error == ""
  }

  /** The latest time among the checked contributions, None when none has one. */
  ghost predicate LatestOf(ss: seq<Status>, at: Option<Instant>) {
    && (forall i :: 0 <= i < |ss| && ss[i].checked && ss[i].checkedAt.Some? ==> at.Some? && at.value >= ss[i].checkedAt.value)
    && (at.Some? ==> exists i :: 0 <= i < |ss| && ss[i].checked && ss[i].checkedAt == at)
  }

  lemma FirstErrorSnoc(ss: seq<Status>, s: Status, error: string)
    requires FirstErrorOf(ss, error)
    ensures FirstErrorOf(ss + [s], if s.checked && error == "" then s.error else error)
  {
    var longer := ss + [s];
    assert forall i :: 0 <= i < |ss| ==> longer[i] == ss[i];
    if error != "" {
      var i :| 0 <= i < |ss| && ss[i].checked && ss[i].error == error
               && forall j :: 0 <= j < i && ss[j].checked ==> ss[j].error == "";
      assert longer[i].error == error;
    } else {
      assert longer[|ss|] == s;
    }
  }

  lemma LatestSnoc(ss: seq<Status>, s: Status, at: Option<Instant>, at': Option<Instant>)
    requires LatestOf(ss, at)
    requires at' == if s.checked && s.checkedAt.Some? && (at.None? || s.checkedAt.value > at.value) then s.checkedAt else at
    ensures LatestOf(ss + [s], at')
  {
    var longer := ss + [s];
    assert longer[|ss|] == s;
    if at.Some? {
      var i :| 0 <= i < |ss| && ss[i].checked && ss[i].checkedAt == at;
      assert longer[i] == ss[i];
    }
  }

  lemma {:induction false} SummaryError(ss: seq<Status>)
    ensures FirstErrorOf(ss, AppendAll(CHECKED, ss).error)
  {
    if ss != [] {
      var init, last := ss[..|ss| - 1], ss[|ss| - 1];
      SummaryError(init);
      FirstErrorSnoc(init, last, AppendAll(CHECKED, init).error);
      hide FirstErrorOf;
      assert init + [last] == ss;
    }
  }

  lemma {:induction false} SummaryTime(ss: seq<Status>)
    ensures LatestOf(ss, AppendAll(CHECKED, ss).checkedAt)
  {
    if ss != [] {
      var init, last := ss[..|ss| - 1], ss[|ss| - 1];
      SummaryTime(init);
      LatestSnoc(init, last, AppendAll(CHECKED, init).checkedAt, AppendAll(CHECKED, ss).checkedAt);
      hide LatestOf;
      assert init + [last] == ss;
    }
  }

  function RegistryOf(s: Status): int { s.registryImages }
  function SkippedOf(s: Status): int { s.skippedServices }
  function AvailableOf(s: Status): int { if s.available then s.count else 0 }

  lemma SummaryStep(ss: seq<Status>)
    requires ss != []
    ensures var init, last := ss[..|ss| - 1], ss[|ss| - 1];
            && AppendAll(CHECKED, ss) == Append(AppendAll(CHECKED, init), last)
            && AllImages(ss) == AllImages(init) + (if last.checked then last.images else [])
            && forall part :: Total(ss, part) == Total(init, part) + (if last.checked then part(last) else 0)
  {
    hide Append;
  }

  lemma {:induction false} SummaryTotals(ss: seq<Status>)
    ensures var sum := AppendAll(CHECKED, ss);
            && sum.registryImages == Total(ss, RegistryOf)
            && sum.skippedServices == Total(ss, SkippedOf)
            && sum.count == Total(ss, AvailableOf)
            && sum.images == AllImages(ss)
            && (sum.available <==> exists i :: 0 <= i < |ss| && ss[i].checked && ss[i].available)
  {
    if ss != [] {
      var init := ss[..|ss| - 1];
      SummaryTotals(init);
      SummaryStep(ss);
      hide Total;
      hide AppendAll;
      hide AllImages;
      assert forall i :: 0 <= i < |init| ==> init[i] == ss[i];
    }
  }

  /** A summary adds up its contributions: totals are sums, the images are all images in
      order, an update is available when one contribution has one, the error is the first
      one and the time the latest. */
  lemma SummaryAddsUp(ss: seq<Status>)
    ensures var sum := AppendAll(CHECKED, ss);
            && sum.registryImages == Total(ss, RegistryOf)
            && sum.skippedServices == Total(ss, SkippedOf)
            && sum.count == Total(ss, AvailableOf)
            && sum.images == AllImages(ss)
            && (sum.available <==> exists i :: 0 <= i < |ss| && ss[i].checked && ss[i].available)
            && FirstErrorOf(ss, sum.error)
            && LatestOf(ss, sum.checkedAt)
  {
    hide AppendAll;
    hide FirstErrorOf;
    hide LatestOf;
    SummaryTotals(ss);
    SummaryError(ss);
    SummaryTime(ss);
  }

  /** The registry is asked about exactly the eligible projects up to the stop, each
      once and in order, and about nobody after it. */
  lemma {:induction false} AskedExactly(f: Fleet, stop: nat, n: nat, k: nat)
    requires k < n <= |f.projects|
    ensures k in Asked(f, stop, n) <==> k <= stop && Eligible(f.projects[k], f.scheduled)
    ensures forall i, j :: 0 <= i < j < |Asked(f, stop, n)| ==> Asked(f, stop, n)[i] < Asked(f, stop, n)[j]
  {
    hide Asked;
    hide Eligible;
    AskedStep(f, stop, n - 1);
    if n > 1 { AskedExactly(f, stop, n - 1, if k < n - 1 then k else 0); }
    var before := Asked(f, stop, n - 1);
    if k == n - 1 {
      assert k !in before;
    }
  }

  /** The projects that contribute among the first n, in order. */
  function Contributors(f: Fleet, stop: nat, n: nat): (r: seq<nat>)
    requires n <= |f.projects|
    ensures forall i :: 0 <= i < |r| ==> r[i] < n
  {
    if n == 0 then []
    else Contributors(f, stop, n - 1) + (if Contribution(f, stop, n - 1) == [] then [] else [n - 1])
  }

  lemma ContributorsStep(f: Fleet, stop: nat, j: nat)
    requires j < |f.projects|
    ensures var c := Contribution(f, stop, j);
            && (c == [] || c == [c[0]])
            && (c != [] <==> Eligible(f.projects[j], f.scheduled) && (j <= stop || f.projects[j].name in f.store))
            && Contributions(f, stop, j + 1) == Contributions(f, stop, j) + c
            && Contributors(f, stop, j + 1) == Contributors(f, stop, j) + (if c == [] then [] else [j])
  {
    hide Fresh;
    hide Eligible;
  }

  /** Contributors come in order, once each, and project k is one exactly when it is
      eligible and either was asked about or has a stored status. */
  lemma {:induction false} ContributorsAre(f: Fleet, stop: nat, n: nat)
    requires n <= |f.projects|
    ensures var ks := Contributors(f, stop, n);
            && (forall i, j :: 0 <= i < j < |ks| ==> ks[i] < ks[j])
            && (forall k :: 0 <= k < n ==>
                  (k in ks <==> Eligible(f.projects[k], f.scheduled) && (k <= stop || f.projects[k].name in f.store)))
  {
    hide Contribution;
    hide Contributors;
    hide Eligible;
    if n == 0 {
      NoContributors(f, stop);
    } else {
      ContributorsAre(f, stop, n - 1);
      ContributorsStep(f, stop, n - 1);
    }
  }

  lemma NoContributors(f: Fleet, stop: nat)
    ensures Contributors(f, stop, 0) == [] && Contributions(f, stop, 0) == []
  {
  }

  lemma {:induction false} ContributionsAre(f: Fleet, stop: nat, n: nat)
    requires n <= |f.projects|
    ensures var cs, ks := Contributions(f, stop, n), Contributors(f, stop, n);
            |cs| == |ks| && (forall i :: 0 <= i < |ks| ==> Contribution(f, stop, ks[i]) == [cs[i]])
  {
    hide Contribution;
    hide Contributors;
    hide Contributions;
    if n == 0 {
      NoContributors(f, stop);
    } else {
      ContributionsAre(f, stop, n - 1);
      ContributorsStep(f, stop, n - 1);
    }
  }

  /** Which project contributes what: the i-th contribution is that of the i-th contributor;
      contributors come in order, once each, and an eligible project is left out exactly when
      it stands behind the stop and has no stored status. */
  lemma CoverageOnce(f: Fleet, stop: nat, n: nat)
    requires n <= |f.projects|
    ensures var cs, ks := Contributions(f, stop, n), Contributors(f, stop, n);
            && |cs| == |ks|
            && (forall i :: 0 <= i < |ks| ==> Contribution(f, stop, ks[i]) == [cs[i]])
            && (forall i, j :: 0 <= i < j < |ks| ==> ks[i] < ks[j])
            && (forall k :: 0 <= k < n ==>
                  (k in ks <==> Eligible(f.projects[k], f.scheduled) && (k <= stop || f.projects[k].name in f.store)))
  {
    hide Contribution;
    hide Contributors;
    hide Contributions;
    hide Eligible;
    ContributorsAre(f, stop, n);
    ContributionsAre(f, stop, n);
  }

  const SECOND := 1_000_000_000
  const COOLDOWN := 300_000_000_000

  ghost predicate DistinctNames(ps: seq<Project>) {
    forall i, j :: 0 <= i < j < |ps| ==> ps[i].name != ps[j].name
  }

  /** A run is answered from memory. */
  predicate Cooling(last: Instant, now: Instant) { last != 0 && now >= last && now - last < COOLDOWN }

  // ----- what a scan stores and shows, said without the functions above -----

  /** A project whose registry may be asked: active, not the controller, with a scheduled
      check, and with updates on. */
  predicate Asks(p: Project, scheduled: set<string>) {
    !p.inactive && !p.controller && p.name in scheduled && !p.noUpdates
  }

  /** stop is the first project asked whose own check reports a rate limit, or the number of
      projects. */
  ghost predicate StopsFirst(f: Fleet, stop: nat) {
    && stop <= |f.projects|
    && (forall j :: 0 <= j < stop ==> !(Asks(f.projects[j], f.scheduled) && RateLimited(f.check(j).error)))
    && (stop < |f.projects| ==> Asks(f.projects[stop], f.scheduled) && RateLimited(f.check(stop).error))
  }

  /** What becomes of an earlier result: a check without error, or with nothing to keep,
      replaces it as it is; one with an error keeps its earlier notices, exactly as far as
      NoticesKeptExactly says, and its error. */
  ghost predicate Keeps(store: map<string, Status>, name: string, check: Status, stored: Status) {
    if check.error == "" || name !in store || !store[name].checked || store[name].images == [] then stored == check
    else
      var before := store[name].images;
      && stored.checked && stored.error == check.error
      && (UniqueKeys(before) ==> forall k :: 0 <= k < |before| ==>
            (ListedIn(before[k], check, stored)
             <==> check.images == [] || RateLimited(check.error) || HasKey(check.images, Key(before[k]))))
  }

  predicate Shows(shown: seq<Image>, s: Status) { s.checked ==> forall k :: 0 <= k < |s.images| ==> s.images[k] in shown }

  /** What a scan that stopped at `stop` leaves of project i. */
  ghost predicate ProjectKept(f: Fleet, stop: nat, stored: map<string, Status>, shown: seq<Image>, i: nat)
    requires i < |f.projects|
  {
    var p := f.projects[i];
    if i <= stop && p.controller then p.name in stored && stored[p.name] == UNCHECKED
    else if i <= stop && Asks(p, f.scheduled) then
      p.name in stored && Keeps(f.store, p.name, f.check(i), stored[p.name]) && Shows(shown, stored[p.name])
    else
      && (p.name in stored <==> p.name in f.store)
      && (p.name in stored ==>
            stored[p.name] == f.store[p.name] && (i > stop && Asks(p, f.scheduled) ==> Shows(shown, stored[p.name])))
  }

  /** The stored statuses and the summary's images after a scan: project by project, and no
      other project's status changes. */
  ghost predicate ScanKeeps(f: Fleet, stop: nat, stored: map<string, Status>, shown: seq<Image>) {
    && (forall i :: 0 <= i < |f.projects| ==> ProjectKept(f, stop, stored, shown, i))
    && (forall name :: (forall i :: 0 <= i < |f.projects| ==> f.projects[i].name != name) ==>
          (name in stored <==> name in f.store) && (name in stored ==> stored[name] == f.store[name]))
  }

  lemma FreshKeeps(store: map<string, Status>, name: string, check: Status)
    ensures Keeps(store, name, check, Fresh(store, name, check))
  {
    if check.error != "" && name in store && store[name].checked && store[name].images != [] {
      var before := store[name].images;
      PreservedKeepsFresh(store[name], check);
      PreservedIsChecked(store[name], check);
      hide RateLimited;
      hide ListedIn;
      hide Preserved;
      hide HasKey;
      if UniqueKeys(before) {
        forall k | 0 <= k < |before|
          ensures ListedIn(before[k], check, Fresh(store, name, check))
            <==> check.images == [] || RateLimited(check.error) || HasKey(check.images, Key(before[k]))
        {
          NoticesKeptExactly(store[name], check, k);
        }
      }
    }
  }

  lemma PreservedIsChecked(previous: Status, current: Status)
    requires current.error != "" && previous.checked && previous.images != []
    ensures Preserved(previous, current).checked
  {
    hide RateLimited;
  }

  /** The stored status of project i after the first n. */
  lemma {:induction false} SavedAt(f: Fleet, stop: nat, n: nat, i: nat)
    requires DistinctNames(f.projects) && i < n <= |f.projects|
    ensures var p, m := f.projects[i], Saved(f, stop, n);
            if i <= stop && p.controller then p.name in m && m[p.name] == UNCHECKED
            else if i <= stop && Eligible(p, f.scheduled) then p.name in m && m[p.name] == Fresh(f.store, p.name, f.check(i))
            else (p.name in m <==> p.name in f.store) && (p.name in m ==> m[p.name] == f.store[p.name])
  {
    hide Fresh;
    hide Eligible;
    if i < n - 1 {
      SavedAt(f, stop, n - 1, i);
    } else {
      SavedElsewhere(f, stop, i, f.projects[i].name);
    }
  }

  lemma {:induction false} SavedElsewhere(f: Fleet, stop: nat, n: nat, name: string)
    requires n <= |f.projects| && forall i :: 0 <= i < n ==> f.projects[i].name != name
    ensures var m := Saved(f, stop, n); (name in m <==> name in f.store) && (name in m ==> m[name] == f.store[name])
  {
    hide Fresh;
    hide Eligible;
    if n > 0 {
      SavedElsewhere(f, stop, n - 1, name);
    }
  }

  lemma AllImagesSnoc(ss: seq<Status>, s: Status)
    ensures AllImages(ss + [s]) == AllImages(ss) + (if s.checked then s.images else [])
  {
    assert (ss + [s])[..|ss|] == ss;
  }

  lemma ShownAmong(a: seq<Image>, b: seq<Image>, s: Status)
    ensures Shows(a, s) ==> Shows(a + b, s)
    ensures s.checked ==> Shows(a + s.images, s)
  {
    if s.checked {
      forall k | 0 <= k < |s.images| ensures s.images[k] in a + s.images {
        assert (a + s.images)[|a| + k] == s.images[k];
      }
      if Shows(a, s) {
        forall k | 0 <= k < |s.images| ensures s.images[k] in a + b {
          assert s.images[k] in a;
        }
      }
    }
  }

  lemma NotChecked(shown: seq<Image>, s: Status)
    requires !s.checked
    ensures Shows(shown, s)
  {
  }

  lemma {:induction false} AllShown(ss: seq<Status>, k: nat)
    requires k < |ss|
    ensures Shows(AllImages(ss), ss[k])
  {
    hide Shows;
    var init, last := ss[..|ss| - 1], ss[|ss| - 1];
    assert init + [last] == ss;
    AllImagesSnoc(init, last);
    hide AllImages;
    if k == |ss| - 1 {
      ShownAmong(AllImages(init), [], last);
      if !last.checked { NotChecked(AllImages(ss), last); }
    } else {
      AllShown(init, k);
      ShownAmong(AllImages(init), if last.checked then last.images else [], ss[k]);
    }
  }

  /** What project j contributes is shown. */
  lemma ContributionShown(f: Fleet, stop: nat, n: nat, j: nat)
    requires j < n <= |f.projects| && Contribution(f, stop, j) != []
    ensures Shows(AllImages(Contributions(f, stop, n)), Contribution(f, stop, j)[0])
  {
    hide Shows;
    hide AllImages;
    ContributorsStep(f, stop, j);
    CoverageOnce(f, stop, n);
    hide Eligible;
    hide Contribution;
    hide Contributions;
    hide Contributors;
    var ks := Contributors(f, stop, n);
    var k :| 0 <= k < |ks| && ks[k] == j;
    AllShown(Contributions(f, stop, n), k);
  }

  lemma StopFound(f: Fleet)
    ensures StopsFirst(f, StopIndex(f, 0))
  {
    hide RateLimited;
    hide Fresh;
    forall j | 0 <= j < |f.projects|
      ensures StopsFleet(f, j) <==> Asks(f.projects[j], f.scheduled) && RateLimited(f.check(j).error)
    {
      StopIsTheChecks(f, j);
    }
    hide StopsFleet;
  }

  /** So Saved and the contributions keep and show what they should. */
  lemma SavedKeeps(f: Fleet, stop: nat)
    requires DistinctNames(f.projects)
    ensures ScanKeeps(f, stop, Saved(f, stop, |f.projects|), AllImages(Contributions(f, stop, |f.projects|)))
  {
    hide Fresh;
    hide Keeps;
    hide Shows;
    hide Saved;
    hide AllImages;
    hide Contributions;
    var n := |f.projects|;
    forall i | 0 <= i < n
      ensures ProjectKept(f, stop, Saved(f, stop, n), AllImages(Contributions(f, stop, n)), i)
    {
      SavedAt(f, stop, n, i);
      FreshKeeps(f.store, f.projects[i].name, f.check(i));
      if Contribution(f, stop, i) != [] {
        ContributionShown(f, stop, n, i);
      }
    }
    forall name | forall i :: 0 <= i < n ==> f.projects[i].name != name
      ensures var m := Saved(f, stop, n); (name in m <==> name in f.store) && (name in m ==> m[name] == f.store[name])
    {
      SavedElsewhere(f, stop, n, name);
    }
    assert forall i :: 0 <= i < n ==> ProjectKept(f, stop, Saved(f, stop, n), AllImages(Contributions(f, stop, n)), i);
  }

  lemma ScanIsKept(f: Fleet)
    requires DistinctNames(f.projects)
    ensures var stop := StopIndex(f, 0);
            && StopsFirst(f, stop)
            && ScanKeeps(f, stop, Saved(f, stop, |f.projects|), AppendAll(CHECKED, Contributions(f, stop, |f.projects|)).images)
  {
    hide StopsFirst;
    hide ScanKeeps;
    hide AppendAll;
    hide Saved;
    hide Contributions;
    StopFound(f);
    SavedKeeps(f, StopIndex(f, 0));
    SummaryAddsUp(Contributions(f, StopIndex(f, 0), |f.projects|));
  }

  /** The statuses of the projects from i on are as they were. */
  ghost predicate Untouched(projects: seq<Project>, i: nat, statuses: map<string, Status>, store: map<string, Status>) {
    forall j :: i <= j < |projects| ==>
      (projects[j].name in statuses <==> projects[j].name in store)
      && (projects[j].name in store ==> statuses[projects[j].name] == store[projects[j].name])
  }

  lemma AllUntouched(projects: seq<Project>, store: map<string, Status>)
    ensures Untouched(projects, 0, store, store)
  {
  }

  lemma UntouchedStep(projects: seq<Project>, i: nat, statuses: map<string, Status>, store: map<string, Status>)
    requires DistinctNames(projects) && i < |projects| && Untouched(projects, i, statuses, store)
    ensures var name := projects[i].name;
            && (name in statuses <==> name in store) && (name in store ==> statuses[name] == store[name])
    ensures Untouched(projects, i + 1, statuses, store)
  {
  }

  lemma UntouchedPut(projects: seq<Project>, i: nat, statuses: map<string, Status>, store: map<string, Status>, s: Status)
    requires DistinctNames(projects) && i < |projects| && Untouched(projects, i, statuses, store)
    ensures Untouched(projects, i + 1, statuses[projects[i].name := s], store)
  {
  }

  class UpdateCheckManager {
    var lastRunAt: Instant
    var lastSummary: Status
    var statuses: map<string, Status>

    constructor (stored: map<string, Status>)
      ensures lastRunAt == 0 && statuses == stored
    {
      lastRunAt, lastSummary, statuses := 0, UNCHECKED, stored;
    }

    /** The fleet loop: every eligible project contributes once, by a fresh check up to
        the first status that reports a rate limit and by its stored status after it;
        `asked` lists the projects whose registry was contacted. */
    method Scan(projects: seq<Project>, scheduled: set<string>, check: nat -> Status)
      returns (summary: Status, ghost asked: seq<nat>)
      requires DistinctNames(projects)
      modifies this`statuses
      ensures var f := Fleet(projects, scheduled, old(statuses), check);
              var stop := StopIndex(f, 0);
              var sum := AppendAll(CHECKED, Contributions(f, stop, |projects|));
              && asked == Asked(f, stop, |projects|)
              && summary == if stop < |projects|
                            then sum.(message := RegistryLimited, cached := true, retryAfterSeconds := COOLDOWN / SECOND)
                            else sum
      ensures var f := Fleet(projects, scheduled, old(statuses), check);
              statuses == Saved(f, StopIndex(f, 0), |projects|)
      ensures var f := Fleet(projects, scheduled, old(statuses), check);
              var stop := StopIndex(f, 0);
              StopsFirst(f, stop) && ScanKeeps(f, stop, statuses, summary.images)
    {
      hide RateLimited;
      hide Preserved;
      hide Append;
      hide AppendAll;
      hide Contribution;
      hide Contributions;
      hide Saved;
      hide Asked;
      ghost var f := Fleet(projects, scheduled, statuses, check);
      ghost var stop := StopIndex(f, 0);
      ScanIsKept(f);
      AllUntouched(projects, statuses);
      hide StopsFirst;
      hide ScanKeeps;
      hide Untouched;
      hide DistinctNames;
      summary, asked := CHECKED, [];
      NoContributions(f, stop);
      var i := 0;
      while i < |projects|
        invariant 0 <= i <= |projects| && i <= stop
        invariant summary == AppendAll(CHECKED, Contributions(f, stop, i))
        invariant asked == Asked(f, stop, i)
        invariant statuses == Saved(f, stop, i)
        invariant Untouched(projects, i, statuses, f.store)
      {
        var p := projects[i];
        UntouchedStep(projects, i, statuses, f.store);
        ContributionsStep(f, stop, i);
        ContributionIs(f, stop, i);
        AskedStep(f, stop, i);
        SavedStep(f, stop, i);
        if p.controller {
          UntouchedPut(projects, i, statuses, f.store, UNCHECKED);
          statuses := statuses[p.name := UNCHECKED];
          i := i + 1;
          continue;
        }
        if p.inactive || p.name !in scheduled || p.noUpdates {
          i := i + 1;
          continue;
        }
        var status := check(i);
        if status.error != "" && p.name in statuses {
          status := PreservePreviousUpdateResults(statuses[p.name], status);
        }
        assert status == Fresh(f.store, p.name, check(i));
        UntouchedPut(projects, i, statuses, f.store, status);
        statuses := statuses[p.name := status];
        summary := AppendUpdateSummary(summary, status);
        asked := asked + [i];
        i := i + 1;
        if RateLimited(status.error) {
          assert StopsFleet(f, i - 1) && stop == i - 1;
          NothingSavedAfter(f, stop, |projects|);
          summary, asked := ScanStored(projects, scheduled, i, summary, f, asked);
          summary := summary.(message := RegistryLimited, cached := true, retryAfterSeconds := COOLDOWN / SECOND);
          return;
        }
        assert !StopsFleet(f, i - 1);
      }
    }

    /** Run: answered from memory while cooling down, else a fresh scan that finishes at
        `completedAt`. `found` is what project discovery returned. */
    method Run(now: Instant, completedAt: Instant, found: Option<seq<Project>>, scheduled: set<string>, check: nat -> Status)
      returns (r: Status)
      requires found.Some? ==> DistinctNames(found.value)
      modifies this
      ensures Cooling(old(lastRunAt), now) ==>
        && lastRunAt == old(lastRunAt) && lastSummary == old(lastSummary) && statuses == old(statuses)
        && r == old(lastSummary).(cached := true, retryAfterSeconds := r.retryAfterSeconds,
                                  refreshAllowedAt := Some(old(lastRunAt) + COOLDOWN), message := r.message)
        && 1 <= r.retryAfterSeconds <= 300
        && !Cooling(old(lastRunAt), now + r.retryAfterSeconds * SECOND)
        && Cooling(old(lastRunAt), now + r.retryAfterSeconds * SECOND - SECOND)
      ensures !Cooling(old(lastRunAt), now) ==>
        && lastRunAt == completedAt && lastSummary == r
        && (found.None? ==> r.error != "" && r.images == [] && statuses == old(statuses))
        && (found.Some? ==>
            var f := Fleet(found.value, scheduled, old(statuses), check);
            var stop := StopIndex(f, 0);
            var sum := AppendAll(CHECKED, Contributions(f, stop, |found.value|));
            && statuses == Saved(f, stop, |found.value|)
            && StopsFirst(f, stop) && ScanKeeps(f, stop, statuses, r.images)
            && r == (if stop < |found.value|
                     then sum.(cached := true, retryAfterSeconds := 300, refreshAllowedAt := Some(completedAt + COOLDOWN),
                               message := r.message)
                     else sum.(message := r.message))
            && r.message == (if r.registryImages == 0 && r.images == [] && r.error == "" then NothingScheduled
                             else if stop < |found.value| then RegistryLimited else NoMessage))
    {
      hide RateLimited;
      hide AppendAll;
      hide Contributions;
      hide Saved;
      hide StopsFirst;
      hide ScanKeeps;
      if lastRunAt != 0 && now >= lastRunAt && now - lastRunAt < COOLDOWN {
        var remaining := COOLDOWN - (now - lastRunAt);
        var seconds := (remaining + SECOND - 1) / SECOND;
        r := lastSummary.(cached := true, retryAfterSeconds := seconds,
                          refreshAllowedAt := Some(lastRunAt + COOLDOWN), message := CoolingDown(remaining));
        return;
      }
      if found.None? {
        r := CHECKED.(error := "discovery failed");
        lastRunAt, lastSummary := completedAt, r;
        return;
      }
      ghost var asked;
      NothingSetYet(Fleet(found.value, scheduled, statuses, check));
      r, asked := Scan(found.value, scheduled, check);
      if r.retryAfterSeconds > 0 {
        r := r.(refreshAllowedAt := Some(completedAt + COOLDOWN));
      }
      if r.registryImages == 0 && |r.images| == 0 && r.error == "" {
        r := r.(message := NothingScheduled);
      }
      lastRunAt, lastSummary := completedAt, r;
    }

    /** The tail loop after a rate limit: stored statuses only, no registry traffic. */
    method ScanStored(projects: seq<Project>, scheduled: set<string>, from: nat, start: Status,
                      ghost f: Fleet, ghost sofar: seq<nat>)
      returns (summary: Status, ghost asked: seq<nat>)
      requires f.projects == projects && f.scheduled == scheduled && 1 <= from <= |projects|
      requires start == AppendAll(CHECKED, Contributions(f, from - 1, from)) && sofar == Asked(f, from - 1, from)
      requires Untouched(projects, from, statuses, f.store)
      ensures summary == AppendAll(CHECKED, Contributions(f, from - 1, |projects|))
      ensures asked == Asked(f, from - 1, |projects|)
    {
      hide RateLimited;
      hide Append;
      hide AppendAll;
      hide Contribution;
      hide Contributions;
      summary, asked := start, sofar;
      for j := from to |projects|
        invariant summary == AppendAll(CHECKED, Contributions(f, from - 1, j))
        invariant asked == Asked(f, from - 1, j)
      {
        ContributionsStep(f, from - 1, j);
        ContributionIs(f, from - 1, j);
        var p := projects[j];
        if p.inactive || p.controller || p.name !in scheduled {
          continue;
        }
        if p.noUpdates {
          continue;
        }
        if p.name in statuses {
          summary := AppendUpdateSummary(summary, statuses[p.name]);
        }
      }
    }
  }

  lemma NothingSetYet(f: Fleet)
    ensures var sum := AppendAll(CHECKED, Contributions(f, StopIndex(f, 0), |f.projects|));
            sum.retryAfterSeconds == 0 && sum.refreshAllowedAt == None && sum.message == NoMessage
  {
    hide RateLimited;
    hide Preserved;
    AppendLeaves(CHECKED, Contributions(f, StopIndex(f, 0), |f.projects|));
  }

  lemma {:induction false} AppendLeaves(summary: Status, ss: seq<Status>)
    ensures var r := AppendAll(summary, ss);
            r.retryAfterSeconds == summary.retryAfterSeconds && r.refreshAllowedAt == summary.refreshAllowedAt
            && r.message == summary.message
  {
    if ss != [] { AppendLeaves(summary, ss[..|ss| - 1]); }
  }

  // ----- the cooldown over any sequence of runs -----

  datatype Call = Call(now: Instant, completed: Instant)

  /** The remembered completion time and the calls that really scanned. */
  datatype Memory = Memory(last: Instant, scans: seq<Call>)

  function Remember(m: Memory, c: Call): Memory {
    if Cooling(m.last, c.now) then m else Memory(c.completed, m.scans + [c])
  }

  function RunAll(calls: seq<Call>): Memory {
    if calls == [] then Memory(0, []) else Remember(RunAll(calls[..|calls| - 1]), calls[|calls| - 1])
  }

  predicate MonotoneClock(calls: seq<Call>) {
    (forall i :: 0 <= i < |calls| ==> 0 < calls[i].now <= calls[i].completed)
    && forall i, j :: 0 <= i < j < |calls| ==> calls[i].completed <= calls[j].now
  }

  lemma {:induction false} LastScan(calls: seq<Call>)
    requires MonotoneClock(calls)
    ensures var m := RunAll(calls);
            && (m.scans == [] ==> m.last == 0)
            && (m.scans != [] ==> m.last == m.scans[|m.scans| - 1].completed > 0)
            && (calls != [] ==> m.last <= calls[|calls| - 1].completed)
            && (forall i :: 0 <= i < |m.scans| - 1 ==> m.scans[i].completed + COOLDOWN <= m.scans[i + 1].now)
            && (forall i :: 0 <= i < |m.scans| ==> m.scans[i].now <= m.scans[i].completed)
  {
    if calls != [] {
      var init, c := calls[..|calls| - 1], calls[|calls| - 1];
      assert forall i :: 0 <= i < |init| ==> init[i] == calls[i];
      LastScan(init);
      assert init != [] ==> calls[|init| - 1].completed <= c.now;
    }
  }

  /** On a monotone clock every real scan starts at least the cooldown after every
      earlier one was completed. */
  lemma {:induction false} ScansAreSpaced(calls: seq<Call>, i: nat, j: nat)
    requires MonotoneClock(calls)
    requires i < j < |RunAll(calls).scans|
    ensures var s := RunAll(calls).scans; s[i].completed + COOLDOWN <= s[j].now
    decreases j
  {
    hide RunAll;
    LastScan(calls);
    if i < j - 1 { ScansAreSpaced(calls, i, j - 1); }
  }

  lemma NoContributions(f: Fleet, stop: nat)
    ensures AppendAll(CHECKED, Contributions(f, stop, 0)) == CHECKED
    ensures Asked(f, stop, 0) == [] && Saved(f, stop, 0) == f.store
  {
  }

  lemma AskedStep(f: Fleet, stop: nat, i: nat)
    requires i < |f.projects|
    ensures Asked(f, stop, 0) == []
    ensures Asked(f, stop, i + 1)
         == Asked(f, stop, i) + (if Eligible(f.projects[i], f.scheduled) && i <= stop then [i] else [])
  {
  }

  lemma SavedStep(f: Fleet, stop: nat, i: nat)
    requires i < |f.projects| && i <= stop
    ensures var p := f.projects[i];
            Saved(f, stop, i + 1) ==
              if p.controller then Saved(f, stop, i)[p.name := UNCHECKED]
              else if Eligible(p, f.scheduled) then Saved(f, stop, i)[p.name := Fresh(f.store, p.name, f.check(i))]
              else Saved(f, stop, i)
  {
    hide Fresh;
  }

  lemma ContributionIs(f: Fleet, stop: nat, i: nat)
    requires i < |f.projects|
    ensures var p := f.projects[i];
      Contribution(f, stop, i) ==
        (if !Eligible(p, f.scheduled) then []
         else if i <= stop then [Fresh(f.store, p.name, f.check(i))]
         else if p.name in f.store then [f.store[p.name]] else [])
  {
  }

  method AppendUpdateSummary(summary: Status, s: Status) returns (r: Status)
    ensures r == Append(summary, s)
  {
    r := summary;
    if !s.checked {
      return;
    }
    r := r.(registryImages := r.registryImages + s.registryImages, skippedServices := r.skippedServices + s.skippedServices);
    if s.available {
      r := r.(available := true, count := r.count + s.count);
    }
    if s.error != "" && r.error == "" {
      r := r.(error := s.error);
    }
    if s.checkedAt.Some? && (r.checkedAt.None? || s.checkedAt.value > r.checkedAt.value) {
      r := r.(checkedAt := s.checkedAt);
    }
    r := r.(images := r.images + s.images);
  }
}
