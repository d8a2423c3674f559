/** Catalog-managed projects: creating, overwriting, editing by hand and applying a
    template update, where every operation may be cut off between two file writes. */
module Provenance {
  import opened Basics
  import opened Text
  import EnvMerge
  import MountScan

  datatype Template = Template(compose: string, env: string)

  type Catalog = map<string, Template>

  /** SHA-256 taken as injective: a digest stands for the text it was made from. */
  datatype Digest = Digest(text: string)

  datatype Record = Record(templateId: string, templateHash: Digest, composeHash: Digest)

  /** One project directory and its files; backups are keyed by their timestamp. */
  datatype Disk = Disk(
    present: bool,
    compose: Option<string>,
    env: Option<string>,
    record: Option<Record>,
    composeBackups: map<string, string>,
    envBackups: map<string, string>)

  datatype Write =
    | MakeDir
    | WriteCompose(text: string)
    | WriteEnv(text: string)
    | WriteRecord(record: Record)
    | RemoveRecord
    | BackUpCompose(stamp: string, text: string)
    | BackUpEnv(stamp: string, text: string)

  function Perform(d: Disk, w: Write): Disk {
    match w
    case MakeDir => d.(present := true)
    case WriteCompose(t) => d.(compose := Some(t))
    case WriteEnv(t) => d.(env := Some(t))
    case WriteRecord(r) => d.(record := Some(r))
    case RemoveRecord => d.(record := None)
    case BackUpCompose(s, t) => d.(composeBackups := d.composeBackups[s := t])
    case BackUpEnv(s, t) => d.(envBackups := d.envBackups[s := t])
  }

  function PerformAll(d: Disk, ws: seq<Write>): Disk {
    if ws == [] then d else Perform(PerformAll(d, ws[..|ws| - 1]), ws[|ws| - 1])
  }

  function TextOf(f: Option<string>): string { if f.Some? then f.value else "" }

  // ----- creating a project -----

  datatype CreateRequest = CreateRequest(templateId: string, compose: string, env: string, overwrite: bool)

  /** The writes of CreateProject that concern these files, in order; none when the
      request is refused. `env` is the content after the run-user keys were merged. */
  function CreateWrites(d: Disk, catalog: Catalog, req: CreateRequest): seq<Write> {
    if TrimSpace(req.compose) == [] || (req.templateId != "" && req.templateId !in catalog)
       || (d.present && !req.overwrite) then []
    else
      [MakeDir, WriteCompose(req.compose)]
      + (if req.env != "" then [WriteEnv(req.env)] else [])
      + (if req.templateId != ""
         then [WriteRecord(Record(req.templateId, Digest(catalog[req.templateId].compose), Digest(req.compose)))]
         else if req.overwrite then [RemoveRecord] else [])
  }

  // ----- applying a template update -----

  /** templateForManagedProject: the project may be rewritten from its template. */
  predicate Managed(d: Disk, catalog: Catalog) {
    && d.record.Some?
    && d.record.value.templateId != ""
    && d.record.value.composeHash == d.record.value.templateHash
    && d.record.value.templateId in catalog
    && d.compose.Some?
    && Digest(d.compose.value) == d.record.value.composeHash
  }

  predicate Allowed(d: Disk, catalog: Catalog) {
    Managed(d, catalog)
    && MountScan.SameMounts(MountScan.ScanText(d.compose.value),
                            MountScan.ScanText(catalog[d.record.value.templateId].compose))
  }

  function ApplyWrites(d: Disk, catalog: Catalog, stamp: string): seq<Write> {
    if !Allowed(d, catalog) then []
    else
      var id := d.record.value.templateId;
      var t := catalog[id];
      var env := TextOf(d.env);
      (if d.compose.value != "" then [BackUpCompose(stamp, d.compose.value)] else [])
      + [WriteCompose(t.compose)]
      + (if env != "" then [BackUpEnv(stamp, env)] else [])
      + [WriteEnv(EnvMerge.Merge(env, t.env))]
      + [WriteRecord(Record(id, Digest(t.compose), Digest(t.compose)))]
  }

  /** The project directory as the engine rewrites it; `writesLeft` is how many file
      writes succeed before one fails. */
  class ProjectDir {
    var disk: Disk
    var writesLeft: nat

    constructor (d: Disk, writes: nat)
      ensures disk == d && writesLeft == writes
    {
      disk, writesLeft := d, writes;
    }

    method Put(w: Write) returns (ok: bool)
      modifies this
      ensures ok == (old(writesLeft) > 0)
      ensures ok ==> disk == Perform(old(disk), w) && writesLeft == old(writesLeft) - 1
      ensures !ok ==> disk == old(disk) && writesLeft == old(writesLeft)
    {
      if writesLeft == 0 {
        return false;
      }
      disk := Perform(disk, w);
      writesLeft := writesLeft - 1;
      return true;
    }

    /** Performs the n-th write of a plan. */
    method PutNext(w: Write, ghost d0: Disk, ghost plan: seq<Write>, ghost n: nat) returns (ok: bool)
      requires n < |plan| && plan[n] == w && disk == PerformAll(d0, plan[..n])
      modifies this
      ensures ok == (old(writesLeft) > 0)
      ensures ok ==> disk == PerformAll(d0, plan[..n + 1]) && writesLeft == old(writesLeft) - 1
      ensures !ok ==> disk == PerformAll(d0, plan[..n]) && writesLeft == 0
    {
      Advance(d0, plan, n);
      ok := Put(w);
    }

    /** ApplyTemplateUpdate: on failure exactly a prefix of its writes has happened. */
    method ApplyTemplateUpdate(catalog: Catalog, stamp: string) returns (ok: bool)
      modifies this
      ensures var ws := ApplyWrites(old(disk), catalog, stamp);
              ok == (ws != [] && |ws| <= old(writesLeft))
              && disk == PerformAll(old(disk), if |ws| <= old(writesLeft) then ws else ws[..old(writesLeft)])
    {
      hide MountScan.ScanText;
      hide EnvMerge.Merge;
      hide PerformAll;
      ghost var ws := ApplyWrites(disk, catalog, stamp);
      ghost var d0 := disk;
      NoWrites(d0);
      assert ws[..0] == [] && ws[..|ws|] == ws;
      if !Managed(disk, catalog) {
        return false;
      }
      var id := disk.record.value.templateId;
      var t := catalog[id];
      var current := TextOf(disk.compose);
      var changed := MountScan.PersistentMountsChanged(current, t.compose);
      if changed {
        return false;
      }
      var env := TextOf(disk.env);
      assert |ws| == 3 + (if current != "" then 1 else 0) + (if env != "" then 1 else 0);
      ghost var n := 0;
      if |current| > 0 {
        ok := PutNext(BackUpCompose(stamp, current), d0, ws, n);
        if !ok { return; }
        n := n + 1;
      }
      ok := PutNext(WriteCompose(t.compose), d0, ws, n);
      if !ok { return; }
      n := n + 1;
      if |env| > 0 {
        ok := PutNext(BackUpEnv(stamp, env), d0, ws, n);
        if !ok { return; }
        n := n + 1;
      }
      var merged := EnvMerge.MergeEnvKeepingValues(env, t.env);
      ok := PutNext(WriteEnv(merged), d0, ws, n);
      if !ok { return; }
      n := n + 1;
      ok := PutNext(WriteRecord(Record(id, Digest(t.compose), Digest(t.compose))), d0, ws, n);
    }
  }

  lemma NoWrites(d: Disk)
    ensures PerformAll(d, []) == d
  {
  }

  lemma Advance(d: Disk, ws: seq<Write>, n: nat)
    requires n < |ws|
    ensures PerformAll(d, ws[..n + 1]) == Perform(PerformAll(d, ws[..n]), ws[n])
  {
    assert ws[..n + 1][..n] == ws[..n];
  }

  // ----- runs of operations, each possibly cut off -----

  datatype Event =
    | Create(req: CreateRequest, cut: nat)
    | Apply(stamp: string, cut: nat)
    | EditCompose(compose: Option<string>)
    | EditEnv(env: Option<string>)
    | Release(catalog: Catalog)

  /** History of one file's backups: every (stamp, text) pair backed up, every text an
      apply replaced, and whether a backup was overwritten by a different text. */
  datatype Trail = Trail(made: set<(string, string)>, replaced: set<string>, lost: bool)

  /** `shipped` is every (template, text) pair the catalog ever held. */
  datatype World = World(
    disk: Disk,
    catalog: Catalog,
    shipped: set<(string, string)>,
    compose: Trail,
    env: Trail)

  /** What n writes of an apply do to a trail; `backups` are those found. */
  function Note(t: Trail, backups: map<string, string>, stamp: string, text: string, backedUp: bool, replaced: bool): Trail {
    Trail(
      if backedUp then t.made + {(stamp, text)} else t.made,
      if replaced then t.replaced + {text} else t.replaced,
      t.lost || (backedUp && Clobbers(backups, stamp, text)))
  }

  /** A backup of `text` under `stamp` overwrites a different one. */
  predicate Clobbers(backups: map<string, string>, stamp: string, text: string) {
    stamp in backups && backups[stamp] != text
  }

  predicate BacksUpCompose(d: Disk, n: nat) { n > 0 && TextOf(d.compose) != "" }

  predicate BacksUpEnv(d: Disk, n: nat) { n > ComposeSlot(d) + 1 && TextOf(d.env) != "" }

  function Cut(ws: seq<Write>, cut: nat): seq<Write> { if cut <= |ws| then ws[..cut] else ws }

  function Texts(c: Catalog): set<(string, string)> { set id | id in c :: (id, c[id].compose) }

  function Step(w: World, e: Event): World {
    match e
    case Create(req, cut) => w.(disk := PerformAll(w.disk, Cut(CreateWrites(w.disk, w.catalog, req), cut)))
    case Apply(stamp, cut) =>
      var ws := Cut(ApplyWrites(w.disk, w.catalog, stamp), cut);
      var d, d' := w.disk, PerformAll(w.disk, ws);
      w.(disk := d',
         compose := Note(w.compose, d.composeBackups, stamp, TextOf(d.compose), BacksUpCompose(d, |ws|), d'.compose != d.compose),
         env := Note(w.env, d.envBackups, stamp, TextOf(d.env), BacksUpEnv(d, |ws|), d'.env != d.env))
    case EditCompose(t) => w.(disk := w.disk.(present := true, compose := t))
    case EditEnv(t) => w.(disk := w.disk.(present := true, env := t))
    case Release(c) => w.(catalog := c, shipped := w.shipped + Texts(c))
  }

  function Play(w: World, events: seq<Event>): World {
    if events == [] then w else Step(Play(w, events[..|events| - 1]), events[|events| - 1])
  }

  function Empty(c: Catalog): World { World(Disk(false, None, None, None, map[], map[]), c, Texts(c), Trail({}, {}, false), Trail({}, {}, false)) }

  predicate RecordHonest(d: Disk, shipped: set<(string, string)>) {
    d.record.Some? && d.record.value.composeHash == d.record.value.templateHash ==>
      (d.record.value.templateId, d.record.value.templateHash.text) in shipped
  }

  predicate Inv(w: World) {
    && Texts(w.catalog) <= w.shipped
    && RecordHonest(w.disk, w.shipped)
    && TrailInv(w.compose, w.disk.composeBackups)
    && TrailInv(w.env, w.disk.envBackups)
  }

  /** Every backup made is still there under its stamp. */
  predicate Kept(made: set<(string, string)>, backups: map<string, string>) {
    forall b :: b in made ==> b.0 in backups && backups[b.0] == b.1
  }

  predicate TrailInv(t: Trail, backups: map<string, string>) {
    && (forall s :: s in backups ==> (s, backups[s]) in t.made)
    && (forall b :: b in t.made ==> b.0 in backups)
    && (forall x :: x in t.replaced && x != "" ==> exists b :: b in t.made && b.1 == x)
    && (t.lost <==> !Kept(t.made, backups))
  }

  /** Once two texts share a stamp, no later backup can restore both. */
  lemma BackupNoted(t: Trail, backups: map<string, string>, stamp: string, text: string, replaced: bool)
    requires TrailInv(t, backups)
    ensures TrailInv(Note(t, backups, stamp, text, true, replaced), backups[stamp := text])
  {
    var t', backups' := Note(t, backups, stamp, text, true, replaced), backups[stamp := text];
    assert (stamp, text) in t'.made;
    if t.lost {
      var b :| b in t.made && backups[b.0] != b.1;
      assert b in t'.made && (b.0, backups[b.0]) in t'.made;
      assert backups'[b.0] != b.1 || backups'[b.0] != backups[b.0];
    } else if Clobbers(backups, stamp, text) {
      assert (stamp, backups[stamp]) in t'.made;
    }
    forall x | x in t'.replaced && x != "" ensures exists b :: b in t'.made && b.1 == x {
      if x in t.replaced {
        var b :| b in t.made && b.1 == x;
        assert b in t'.made;
      } else {
        assert (stamp, text).1 == x;
      }
    }
  }

  lemma NothingNoted(t: Trail, backups: map<string, string>, stamp: string, text: string, replaced: bool)
    requires TrailInv(t, backups) && (replaced ==> text == "")
    ensures TrailInv(Note(t, backups, stamp, text, false, replaced), backups)
  {
  }

  lemma ShippedNow(w: World, id: string)
    requires Texts(w.catalog) <= w.shipped && id in w.catalog
    ensures (id, w.catalog[id].compose) in w.shipped
  {
    assert (id, w.catalog[id].compose) in Texts(w.catalog);
  }

  lemma {:induction false} WritesWithoutBackup(d: Disk, ws: seq<Write>, rec: Record)
    requires forall i :: 0 <= i < |ws| ==> !ws[i].BackUpCompose? && !ws[i].BackUpEnv? && (ws[i].WriteRecord? ==> ws[i].record == rec)
    ensures var d' := PerformAll(d, ws);
            d'.composeBackups == d.composeBackups && d'.envBackups == d.envBackups
            && (d'.record == d.record || d'.record == None || d'.record == Some(rec))
  {
    if ws != [] { WritesWithoutBackup(d, ws[..|ws| - 1], rec); }
  }

  /** Effects of any prefix of a create: backups stay, a new record is the catalog's. */
  lemma CreateEffects(d: Disk, catalog: Catalog, req: CreateRequest, cut: nat)
    ensures var d' := PerformAll(d, Cut(CreateWrites(d, catalog, req), cut));
            d'.composeBackups == d.composeBackups && d'.envBackups == d.envBackups
            && (d'.record == d.record || d'.record == None
                || (req.templateId in catalog && d'.record.Some? && d'.record.value.templateId == req.templateId
                    && d'.record.value.templateHash == Digest(catalog[req.templateId].compose)))
  {
    hide TrimSpace;
    hide PerformAll;
    var ws := Cut(CreateWrites(d, catalog, req), cut);
    var hash := if req.templateId in catalog then Digest(catalog[req.templateId].compose) else Digest("");
    var rec := Record(req.templateId, hash, Digest(req.compose));
    if req.templateId in catalog || req.templateId == "" {
      WritesWithoutBackup(d, ws, rec);
      NoRecordUnasked(d, ws);
    } else {
      NoWrites(d);
    }
  }

  lemma {:induction false} NoRecordUnasked(d: Disk, ws: seq<Write>)
    requires forall i :: 0 <= i < |ws| ==> !ws[i].BackUpCompose?
    ensures (forall i :: 0 <= i < |ws| ==> !ws[i].WriteRecord?) ==>
      PerformAll(d, ws).record == d.record || PerformAll(d, ws).record == None
  {
    if ws != [] { NoRecordUnasked(d, ws[..|ws| - 1]); }
  }

  lemma PerformConcat(d: Disk, a: seq<Write>, b: seq<Write>)
    ensures PerformAll(d, a + b) == PerformAll(PerformAll(d, a), b)
  {
    hide Perform;
    if b == [] {
      assert a + b == a;
    } else {
      assert (a + b)[..|a + b| - 1] == a + b[..|b| - 1];
      PerformConcat(d, a, b[..|b| - 1]);
    }
  }

  lemma PerformOne(d: Disk, w: Write)
    ensures PerformAll(d, [w]) == Perform(d, w)
  {
    hide Perform;
    assert [w][..0] == [];
  }

  /** A create is refused, and touches nothing, exactly for a blank compose text, an unknown
      template, or an existing project without overwrite. */
  lemma CreateRefused(d: Disk, catalog: Catalog, req: CreateRequest, cut: nat)
    ensures CreateWrites(d, catalog, req) == []
       <==> Blank(req.compose) || (req.templateId != "" && req.templateId !in catalog) || (d.present && !req.overwrite)
    ensures CreateWrites(d, catalog, req) == [] ==> PerformAll(d, Cut(CreateWrites(d, catalog, req), cut)) == d
  {
    TrimSpaceBlank(req.compose);
    hide TrimSpace;
  }

  /** A completed create or overwrite leaves a managed project exactly when it named a
      template and its compose text is that template's, word for word: a text customised
      beforehand is not managed, and a generic overwrite ends the management. */
  lemma CompletedCreate(d: Disk, catalog: Catalog, req: CreateRequest)
    requires CreateWrites(d, catalog, req) != [] && (d.present || d.record.None?)
    ensures var d' := PerformAll(d, CreateWrites(d, catalog, req));
            && d'.present && d'.compose == Some(req.compose)
            && d'.env == (if req.env != "" then Some(req.env) else d.env)
            && d'.record == (if req.templateId != ""
                             then Some(Record(req.templateId, Digest(catalog[req.templateId].compose), Digest(req.compose)))
                             else if req.overwrite then None else d.record)
            && (Managed(d', catalog) <==> req.templateId != "" && req.compose == catalog[req.templateId].compose)
  {
    hide PerformAll;
    hide TrimSpace;
    var ws := CreateWrites(d, catalog, req);
    var env := if req.env != "" then [WriteEnv(req.env)] else [];
    var rec := ws[2 + |env|..];
    assert ws == [MakeDir, WriteCompose(req.compose)] + env + rec;
    assert [MakeDir] + [WriteCompose(req.compose)] == [MakeDir, WriteCompose(req.compose)];
    PerformConcat(d, [MakeDir], [WriteCompose(req.compose)]);
    PerformOne(d, MakeDir);
    PerformOne(d.(present := true), WriteCompose(req.compose));
    var d2 := d.(present := true, compose := Some(req.compose));
    PerformConcat(d, [MakeDir, WriteCompose(req.compose)], env);
    if req.env != "" { PerformOne(d2, WriteEnv(req.env)); } else { NoWrites(d2); }
    var d3 := PerformAll(d2, env);
    PerformConcat(d, [MakeDir, WriteCompose(req.compose)] + env, rec);
    if rec == [] { NoWrites(d3); } else { assert rec == [rec[0]]; PerformOne(d3, rec[0]); }
  }

  /** Where an apply writes the compose file: after its backup, if there is one. */
  function ComposeSlot(d: Disk): nat { if TextOf(d.compose) == "" then 0 else 1 }

  /** The plan of an allowed apply, spelled out. */
  lemma ApplyPlan(d: Disk, catalog: Catalog, stamp: string)
    requires Allowed(d, catalog)
    ensures var ws := ApplyWrites(d, catalog, stamp);
            var t := catalog[d.record.value.templateId];
            var c := ComposeSlot(d);
            var m := EnvSlot(d);
            && |ws| == m + 2
            && (c > 0 ==> ws[0] == BackUpCompose(stamp, d.compose.value))
            && ws[c] == WriteCompose(t.compose)
            && (m > c + 1 ==> ws[c + 1] == BackUpEnv(stamp, TextOf(d.env)))
            && ws[m] == WriteEnv(EnvMerge.Merge(TextOf(d.env), t.env))
            && ws[m + 1] == WriteRecord(Record(d.record.value.templateId, Digest(t.compose), Digest(t.compose)))
  {
    hide MountScan.ScanText;
    hide EnvMerge.Merge;
  }

  /** Where it writes the .env file: after the compose file, and after its own backup. */
  function EnvSlot(d: Disk): nat { ComposeSlot(d) + (if TextOf(d.env) == "" then 1 else 2) }

  /** The disk after the first n writes of an apply of template t. */
  function AfterWrites(d: Disk, id: string, t: Template, stamp: string, n: nat): Disk {
    var c, m := ComposeSlot(d), EnvSlot(d);
    Disk(
      d.present,
      if n > c then Some(t.compose) else d.compose,
      if n > m then Some(EnvMerge.Merge(TextOf(d.env), t.env)) else d.env,
      if n > m + 1 then Some(Record(id, Digest(t.compose), Digest(t.compose))) else d.record,
      if n > 0 && c > 0 then d.composeBackups[stamp := TextOf(d.compose)] else d.composeBackups,
      if n > c + 1 && m > c + 1 then d.envBackups[stamp := TextOf(d.env)] else d.envBackups)
  }

  lemma {:induction false} ApplyPrefix(d: Disk, catalog: Catalog, stamp: string, n: nat)
    requires Allowed(d, catalog) && n <= |ApplyWrites(d, catalog, stamp)|
    ensures var id := d.record.value.templateId;
            PerformAll(d, ApplyWrites(d, catalog, stamp)[..n]) == AfterWrites(d, id, catalog[id], stamp, n)
    ensures |ApplyWrites(d, catalog, stamp)| == EnvSlot(d) + 2
  {
    hide EnvMerge.Merge;
    hide Allowed;
    hide ApplyWrites;
    ManagedFacts(d, catalog);
    var ws := ApplyWrites(d, catalog, stamp);
    ApplyPlan(d, catalog, stamp);
    if n == 0 {
      assert ws[..0] == [];
    } else {
      ApplyPrefix(d, catalog, stamp, n - 1);
      Advance(d, ws, n - 1);
      hide PerformAll;
      var c, m := ComposeSlot(d), EnvSlot(d);
      if n - 1 < c {
        assert ws[n - 1].BackUpCompose?;
      } else if n - 1 == c {
        assert ws[n - 1].WriteCompose?;
      } else if n - 1 < m {
        assert ws[n - 1].BackUpEnv?;
      } else if n - 1 == m {
        assert ws[n - 1].WriteEnv?;
      } else {
        assert ws[n - 1].WriteRecord?;
      }
    }
  }

  lemma ManagedFacts(d: Disk, catalog: Catalog)
    requires Allowed(d, catalog)
    ensures d.record.Some? && d.record.value.templateId in catalog && d.compose.Some? && Managed(d, catalog)
  {
    hide MountScan.ScanText;
  }

  // ----- what every run guarantees -----

  lemma ApplyKeepsInv(w: World, stamp: string, cut: nat)
    requires Inv(w)
    ensures Inv(Step(w, Apply(stamp, cut)))
  {
    hide Allowed;
    hide ApplyWrites;
    hide PerformAll;
    hide Texts;
    hide TrailInv;
    hide Note;
    hide EnvMerge.Merge;
    var d, ws := w.disk, ApplyWrites(w.disk, w.catalog, stamp);
    if Allowed(d, w.catalog) {
      ManagedFacts(d, w.catalog);
      var n := |Cut(ws, cut)|;
      assert Cut(ws, cut) == ws[..n];
      ApplyPrefix(d, w.catalog, stamp, n);
      ShippedNow(w, d.record.value.templateId);
      var d' := PerformAll(d, ws[..n]);
      if BacksUpCompose(d, n) {
        BackupNoted(w.compose, d.composeBackups, stamp, TextOf(d.compose), d'.compose != d.compose);
      } else {
        NothingNoted(w.compose, d.composeBackups, stamp, TextOf(d.compose), d'.compose != d.compose);
      }
      if BacksUpEnv(d, n) {
        BackupNoted(w.env, d.envBackups, stamp, TextOf(d.env), d'.env != d.env);
      } else {
        NothingNoted(w.env, d.envBackups, stamp, TextOf(d.env), d'.env != d.env);
      }
    } else {
      RefusedWrites(d, w.catalog, stamp);
      NoWrites(d);
      NothingNoted(w.compose, d.composeBackups, stamp, TextOf(d.compose), false);
      NothingNoted(w.env, d.envBackups, stamp, TextOf(d.env), false);
    }
  }

  lemma RefusedWrites(d: Disk, catalog: Catalog, stamp: string)
    requires !Allowed(d, catalog)
    ensures ApplyWrites(d, catalog, stamp) == []
  {
    hide MountScan.ScanText;
  }

  lemma StepKeepsInv(w: World, e: Event)
    requires Inv(w)
    ensures Inv(Step(w, e))
  {
    hide PerformAll;
    hide CreateWrites;
    hide ApplyWrites;
    hide Allowed;
    hide TrailInv;
    hide Note;
    match e {
      case Create(req, cut) =>
        CreateEffects(w.disk, w.catalog, req, cut);
        if req.templateId in w.catalog { ShippedNow(w, req.templateId); }
      case Apply(stamp, cut) => ApplyKeepsInv(w, stamp, cut);
      case EditCompose(_) =>
      case EditEnv(_) =>
      case Release(_) =>
    }
  }

  lemma {:induction false} PlayKeepsInv(c: Catalog, events: seq<Event>)
    ensures Inv(Play(Empty(c), events))
  {
    hide Step;
    if events != [] {
      PlayKeepsInv(c, events[..|events| - 1]);
      StepKeepsInv(Play(Empty(c), events[..|events| - 1]), events[|events| - 1]);
    }
  }

  /** After any history, an apply cut off anywhere changes the compose file only when
      that file's text equals the recorded hash and is, word for word, a text that the
      catalog shipped for this template; a file with local changes is left alone. */
  lemma OnlyCatalogTextIsReplaced(c: Catalog, events: seq<Event>, stamp: string, cut: nat)
    ensures var w := Play(Empty(c), events);
            var w' := Step(w, Apply(stamp, cut));
            && (w'.disk.compose != w.disk.compose ==>
                  && w.disk.compose.Some? && w.disk.record.Some?
                  && Digest(w.disk.compose.value) == w.disk.record.value.composeHash
                  && (w.disk.record.value.templateId, w.disk.compose.value) in w.shipped)
            && (w.disk.record.None? || w.disk.compose.None? || Digest(w.disk.compose.value) != w.disk.record.value.composeHash ==>
                  w'.disk == w.disk)
  {
    hide Allowed;
    hide ApplyWrites;
    hide PerformAll;
    hide Texts;
    hide Play;
    var w := Play(Empty(c), events);
    PlayKeepsInv(c, events);
    if Allowed(w.disk, w.catalog) {
      ManagedFacts(w.disk, w.catalog);
    } else {
      RefusedWrites(w.disk, w.catalog, stamp);
      NoWrites(w.disk);
    }
  }

  /** Wherever an apply is cut off, the compose text and the .env text it started from
      are still on disk: in place, or in the backup of this apply. */
  lemma NothingLostByApply(d: Disk, catalog: Catalog, stamp: string, cut: nat)
    ensures var d' := PerformAll(d, Cut(ApplyWrites(d, catalog, stamp), cut));
            && (d'.compose == d.compose || TextOf(d.compose) == ""
                || (stamp in d'.composeBackups && d'.composeBackups[stamp] == TextOf(d.compose)))
            && (d'.env == d.env || TextOf(d.env) == ""
                || (stamp in d'.envBackups && d'.envBackups[stamp] == TextOf(d.env)))
  {
    hide Allowed;
    hide ApplyWrites;
    hide PerformAll;
    hide EnvMerge.Merge;
    var ws := ApplyWrites(d, catalog, stamp);
    if Allowed(d, catalog) {
      ManagedFacts(d, catalog);
      var n := if cut <= |ws| then cut else |ws|;
      assert Cut(ws, cut) == ws[..n];
      ApplyPrefix(d, catalog, stamp, n);
    } else {
      RefusedWrites(d, catalog, stamp);
      NoWrites(d);
    }
  }

  /** Over whole runs, exactly: every backup ever made of the compose file is still there
      under its timestamp if and only if no apply overwrote one with a different text, and
      the same for the .env file; and then every text an apply replaced is in a backup. */
  lemma BackupsKeptExactly(c: Catalog, events: seq<Event>)
    ensures var w := Play(Empty(c), events);
            && (Kept(w.compose.made, w.disk.composeBackups) <==> !w.compose.lost)
            && (Kept(w.env.made, w.disk.envBackups) <==> !w.env.lost)
  {
    PlayKeepsInv(c, events);
  }

  lemma ReplacedTextsKept(c: Catalog, events: seq<Event>, t: string)
    requires t != ""
    ensures var w := Play(Empty(c), events);
            && (!w.compose.lost && t in w.compose.replaced ==> t in w.disk.composeBackups.Values)
            && (!w.env.lost && t in w.env.replaced ==> t in w.disk.envBackups.Values)
  {
    hide Step;
    hide Play;
    PlayKeepsInv(c, events);
    var w := Play(Empty(c), events);
    if !w.compose.lost && t in w.compose.replaced {
      var b :| b in w.compose.made && b.1 == t;
      assert w.disk.composeBackups[b.0] == t;
    }
    if !w.env.lost && t in w.env.replaced {
      var b :| b in w.env.made && b.1 == t;
      assert w.disk.envBackups[b.0] == t;
    }
  }

  /** One apply, exactly: cut off after n writes it keeps every earlier backup if and only
      if it had nothing to back up yet, or its timestamp was free, or held the same text. */
  lemma ApplyKeepsBackups(d: Disk, catalog: Catalog, stamp: string, n: nat)
    requires Allowed(d, catalog) && n <= |ApplyWrites(d, catalog, stamp)|
    ensures var d' := PerformAll(d, ApplyWrites(d, catalog, stamp)[..n]);
            && (d.composeBackups.Items <= d'.composeBackups.Items
                <==> n == 0 || TextOf(d.compose) == "" || stamp !in d.composeBackups || d.composeBackups[stamp] == TextOf(d.compose))
            && (d.envBackups.Items <= d'.envBackups.Items
                <==> n <= ComposeSlot(d) + 1 || TextOf(d.env) == "" || stamp !in d.envBackups || d.envBackups[stamp] == TextOf(d.env))
  {
    hide ApplyWrites;
    hide PerformAll;
    hide EnvMerge.Merge;
    hide Allowed;
    ManagedFacts(d, catalog);
    ApplyPrefix(d, catalog, stamp, n);
    PutKeeps(d.composeBackups, stamp, TextOf(d.compose));
    PutKeeps(d.envBackups, stamp, TextOf(d.env));
  }

  lemma PutKeeps(m: map<string, string>, stamp: string, t: string)
    ensures m.Items <= m[stamp := t].Items <==> stamp !in m || m[stamp] == t
  {
    if stamp in m {
      assert (stamp, m[stamp]) in m.Items;
    }
  }

  /** Two applies within one second lose a text: for any two different texts with the same
      mounts, create from the first, release the second, apply twice with one timestamp;
      the first text was replaced and is nowhere any more. */
  lemma SharedStampLosesBackup(id: string, a: string, b: string, stamp: string)
    requires id != "" && a != b && TrimSpace(a) != [] && b != ""
    requires MountScan.SameMounts(MountScan.ScanText(a), MountScan.ScanText(b))
    ensures var events := [Create(CreateRequest(id, a, "", false), 3), Release(map[id := Template(b, "")]),
                           Apply(stamp, 9), Apply(stamp, 9)];
            var w := Play(Empty(map[id := Template(a, "")]), events);
            && a in w.compose.replaced && w.compose.lost
            && w.disk.compose == Some(b) && w.disk.composeBackups == map[stamp := b]
  {
    hide Play;
    hide Step;
    hide MountScan.ScanText;
    hide MountScan.SameMounts;
    hide EnvMerge.Merge;
    var c := map[id := Template(a, "")];
    var c' := map[id := Template(b, "")];
    var events := [Create(CreateRequest(id, a, "", false), 3), Release(c'), Apply(stamp, 9), Apply(stamp, 9)];
    var w0 := Empty(c);
    PlayEmpty(w0);
    assert events[..0] == [];
    PlayPrefix(w0, events, 0);
    PlayPrefix(w0, events, 1);
    PlayPrefix(w0, events, 2);
    PlayPrefix(w0, events, 3);
    assert events[..4] == events;
    CreateRuns(id, a);
    var made := Disk(true, Some(a), None, Some(Record(id, Digest(a), Digest(a))), map[], map[]);
    var w2 := Step(Step(w0, events[0]), events[1]);
    ReleaseRuns(Step(w0, events[0]), c');
    assert w2.disk == made && w2.catalog == c';
    ApplyRuns(w2, id, stamp);
    var w3 := Step(w2, events[2]);
    MountScan.SameMountsEquivalence(a, b, a);
    MountScan.SameMountsEquivalence(b, a, b);
    ApplyRuns(w3, id, stamp);
  }

  lemma CreateRuns(id: string, a: string)
    requires id != "" && TrimSpace(a) != []
    ensures var w := Empty(map[id := Template(a, "")]);
            Step(w, Create(CreateRequest(id, a, "", false), 3))
            == w.(disk := Disk(true, Some(a), None, Some(Record(id, Digest(a), Digest(a))), map[], map[]))
  {
    hide TrimSpace;
    hide PerformAll;
    var w := Empty(map[id := Template(a, "")]);
    var rec := Record(id, Digest(a), Digest(a));
    var ws := CreateWrites(w.disk, w.catalog, CreateRequest(id, a, "", false));
    assert ws == [MakeDir, WriteCompose(a), WriteRecord(rec)];
    NoWrites(w.disk);
    assert ws[..0] == [];
    Advance(w.disk, ws, 0);
    Advance(w.disk, ws, 1);
    Advance(w.disk, ws, 2);
    assert Cut(ws, 3) == ws[..3];
  }

  lemma ReleaseRuns(w: World, c: Catalog)
    ensures var w' := Step(w, Release(c));
            w'.disk == w.disk && w'.catalog == c && w'.compose == w.compose && w'.env == w.env
  {
  }

  /** A whole apply of a managed project whose .env brings nothing of its own. */
  lemma ApplyRuns(w: World, id: string, stamp: string)
    requires Allowed(w.disk, w.catalog) && w.disk.record.value.templateId == id && TextOf(w.disk.compose) != ""
    ensures var d, t := w.disk, w.catalog[id];
            var w' := Step(w, Apply(stamp, 9));
            && w'.catalog == w.catalog
            && w'.disk.compose == Some(t.compose)
            && w'.disk.record == Some(Record(id, Digest(t.compose), Digest(t.compose)))
            && w'.disk.composeBackups == d.composeBackups[stamp := TextOf(d.compose)]
            && w'.compose == Note(w.compose, d.composeBackups, stamp, TextOf(d.compose), true, d.compose != Some(t.compose))
  {
    hide ApplyWrites;
    hide PerformAll;
    hide EnvMerge.Merge;
    hide Allowed;
    hide Note;
    ManagedFacts(w.disk, w.catalog);
    var ws := ApplyWrites(w.disk, w.catalog, stamp);
    ApplyPrefix(w.disk, w.catalog, stamp, |ws|);
    assert Cut(ws, 9) == ws == ws[..|ws|];
  }

  lemma PlayEmpty(w: World)
    ensures Play(w, []) == w
  {
  }

  lemma PlayPrefix(w: World, events: seq<Event>, k: nat)
    requires k < |events|
    ensures Play(w, events[..k + 1]) == Step(Play(w, events[..k]), events[k])
  {
    assert events[..k + 1][..k] == events[..k];
  }

  /** When an apply goes ahead: exactly for a record that names a template of the catalog and
      a deployment without changes, a compose file that still has the recorded text, and
      mounts that the guard reads and finds the same. Otherwise it touches nothing. */
  lemma ApplyGoesAhead(d: Disk, catalog: Catalog, stamp: string, cut: nat)
    ensures ApplyWrites(d, catalog, stamp) != [] <==>
      d.record.Some? && d.compose.Some?
      && d.record.value.templateId != "" && d.record.value.templateId in catalog
      && d.record.value.composeHash == d.record.value.templateHash == Digest(d.compose.value)
      && MountScan.SameMounts(MountScan.ScanText(d.compose.value),
                              MountScan.ScanText(catalog[d.record.value.templateId].compose))
    ensures ApplyWrites(d, catalog, stamp) == [] ==> PerformAll(d, Cut(ApplyWrites(d, catalog, stamp), cut)) == d
  {
    hide MountScan.ScanText;
    hide MountScan.SameMounts;
    hide EnvMerge.Merge;
  }

  /** Wherever it is cut off, an apply never changes what the guard reads of the mounts. */
  lemma ApplyKeepsMounts(d: Disk, catalog: Catalog, stamp: string, cut: nat)
    requires d.compose.Some?
    ensures var d' := PerformAll(d, Cut(ApplyWrites(d, catalog, stamp), cut));
            d'.compose.Some?
            && MountScan.SameView(MountScan.ScanText(d'.compose.value), MountScan.ScanText(d.compose.value))
  {
    hide ApplyWrites;
    hide PerformAll;
    hide EnvMerge.Merge;
    hide MountScan.ScanText;
    var ws := ApplyWrites(d, catalog, stamp);
    if Allowed(d, catalog) {
      var n := |Cut(ws, cut)|;
      assert Cut(ws, cut) == ws[..n];
      ApplyPrefix(d, catalog, stamp, n);
    } else {
      RefusedWrites(d, catalog, stamp);
      NoWrites(d);
    }
  }

  /** A completed apply installs the template, overrides its settings with the user's,
      and leaves the project managed and applicable again. */
  lemma CompletedApply(d: Disk, catalog: Catalog, stamp: string)
    requires Allowed(d, catalog)
    ensures var t := catalog[d.record.value.templateId];
            var d' := PerformAll(d, ApplyWrites(d, catalog, stamp));
            && d'.compose == Some(t.compose)
            && d'.env == Some(EnvMerge.Merge(TextOf(d.env), t.env))
            && EnvMerge.ParseEnv(TextOf(d'.env)) == EnvMerge.ParseEnv(t.env) + EnvMerge.ParseEnv(TextOf(d.env))
            && Allowed(d', catalog)
            && d'.record.value.templateId == d.record.value.templateId
  {
    hide ApplyWrites;
    hide PerformAll;
    hide EnvMerge.Merge;
    hide EnvMerge.ParseEnv;
    hide MountScan.ScanText;
    var ws := ApplyWrites(d, catalog, stamp);
    var t := catalog[d.record.value.templateId];
    ApplyPrefix(d, catalog, stamp, |ws|);
    ApplyPlan(d, catalog, stamp);
    assert ws[..|ws|] == ws;
    EnvMerge.MergeMeansOverride(TextOf(d.env), t.env);
  }

  /** Applying the same catalog again is stable: the compose file stays, and from the
      second apply on the .env text stays too. */
  lemma ReapplyStabilises(d: Disk, catalog: Catalog, s1: string, s2: string, s3: string)
    requires Allowed(d, catalog)
    ensures var d1 := PerformAll(d, ApplyWrites(d, catalog, s1));
            var d2 := PerformAll(d1, ApplyWrites(d1, catalog, s2));
            var d3 := PerformAll(d2, ApplyWrites(d2, catalog, s3));
            d3.compose == d2.compose == d1.compose && d3.env == d2.env && d3.record == d2.record
  {
    hide ApplyWrites;
    hide PerformAll;
    hide EnvMerge.Merge;
    hide EnvMerge.ParseEnv;
    hide Allowed;
    ManagedFacts(d, catalog);
    var t := catalog[d.record.value.templateId];
    var d1 := PerformAll(d, ApplyWrites(d, catalog, s1));
    var d2 := PerformAll(d1, ApplyWrites(d1, catalog, s2));
    CompletedApply(d, catalog, s1);
    CompletedApply(d1, catalog, s2);
    CompletedApply(d2, catalog, s3);
    EnvMerge.MergeStabilises(TextOf(d.env), t.env);
    AppliedRecord(d, catalog, s1);
    AppliedRecord(d1, catalog, s2);
    AppliedRecord(d2, catalog, s3);
  }

  lemma AppliedRecord(d: Disk, catalog: Catalog, stamp: string)
    requires Allowed(d, catalog)
    ensures var t := catalog[d.record.value.templateId];
            PerformAll(d, ApplyWrites(d, catalog, stamp)).record
              == Some(Record(d.record.value.templateId, Digest(t.compose), Digest(t.compose)))
  {
    hide ApplyWrites;
    hide PerformAll;
    hide EnvMerge.Merge;
    hide MountScan.ScanText;
    var ws := ApplyWrites(d, catalog, stamp);
    ApplyPrefix(d, catalog, stamp, |ws|);
    assert ws[..|ws|] == ws;
  }

  /** An apply cut off before its last write leaves the project managed exactly when
      the compose file still has its old text: one cut off in between reads as locally
      changed from then on. */
  lemma InterruptedApply(d: Disk, catalog: Catalog, stamp: string, n: nat)
    requires Allowed(d, catalog) && n < |ApplyWrites(d, catalog, stamp)|
    ensures var t := catalog[d.record.value.templateId];
            var d' := PerformAll(d, ApplyWrites(d, catalog, stamp)[..n]);
            Managed(d', catalog) <==> n <= ComposeSlot(d) || t.compose == d.compose.value
  {
    hide ApplyWrites;
    hide PerformAll;
    hide EnvMerge.Merge;
    hide MountScan.ScanText;
    ApplyPrefix(d, catalog, stamp, n);
  }

  /** The compose file does not have the recorded hash. */
  predicate Torn(d: Disk) {
    d.compose.Some? && d.record.Some? && Digest(d.compose.value) != d.record.value.composeHash
  }

  predicate LeavesTorn(e: Event) { e.Apply? || e.Release? || e.EditEnv? }

  lemma StepStaysTorn(w: World, e: Event)
    requires Torn(w.disk) && LeavesTorn(e)
    ensures Torn(Step(w, e).disk)
  {
    hide PerformAll;
    hide ApplyWrites;
    hide Texts;
    hide Note;
    if e.Apply? {
      assert !Allowed(w.disk, w.catalog);
      hide Allowed;
      RefusedWrites(w.disk, w.catalog, e.stamp);
      assert Cut([], e.cut) == [];
      NoWrites(w.disk);
    }
  }

  lemma {:induction false} StaysTorn(w: World, events: seq<Event>)
    requires Torn(w.disk) && forall i :: 0 <= i < |events| ==> LeavesTorn(events[i])
    ensures Torn(Play(w, events).disk)
  {
    hide Step;
    hide Torn;
    hide LeavesTorn;
    if events != [] {
      StaysTorn(w, events[..|events| - 1]);
      StepStaysTorn(Play(w, events[..|events| - 1]), events[|events| - 1]);
    }
  }

  lemma TornUnmanaged(d: Disk, catalog: Catalog)
    requires Torn(d)
    ensures !Managed(d, catalog)
  {
  }

  /** Create from one text, release another with the same mounts, and cut the apply off
      right behind the compose file. */
  lemma InterruptedRun(id: string, a: string, b: string, stamp: string)
    requires id != "" && a != b && TrimSpace(a) != []
    requires MountScan.SameMounts(MountScan.ScanText(a), MountScan.ScanText(b))
    ensures var events := [Create(CreateRequest(id, a, "", false), 3), Release(map[id := Template(b, "")]), Apply(stamp, 2)];
            Torn(Play(Empty(map[id := Template(a, "")]), events).disk)
  {
    hide Play;
    hide Step;
    hide Torn;
    hide MountScan.ScanText;
    hide MountScan.SameMounts;
    var c' := map[id := Template(b, "")];
    var events := [Create(CreateRequest(id, a, "", false), 3), Release(c'), Apply(stamp, 2)];
    var w0 := Empty(map[id := Template(a, "")]);
    PlayEmpty(w0);
    assert events[..0] == [];
    PlayPrefix(w0, events, 0);
    PlayPrefix(w0, events, 1);
    PlayPrefix(w0, events, 2);
    assert events[..3] == events;
    CreateRuns(id, a);
    ReleaseRuns(Step(w0, events[0]), c');
    var w2 := Step(Step(w0, events[0]), events[1]);
    assert w2.disk == Disk(true, Some(a), None, Some(Record(id, Digest(a), Digest(a))), map[], map[]) && w2.catalog == c';
    ApplyCutShort(w2, stamp);
  }

  /** From then on no apply, release or edit of the .env file makes that project managed
      again, under any catalog. */
  lemma InterruptedForGood(id: string, a: string, b: string, stamp: string, rest: seq<Event>, catalog: Catalog)
    requires id != "" && a != b && TrimSpace(a) != []
    requires MountScan.SameMounts(MountScan.ScanText(a), MountScan.ScanText(b))
    requires forall i :: 0 <= i < |rest| ==> LeavesTorn(rest[i])
    ensures var events := [Create(CreateRequest(id, a, "", false), 3), Release(map[id := Template(b, "")]), Apply(stamp, 2)];
            !Managed(Play(Empty(map[id := Template(a, "")]), events + rest).disk, catalog)
  {
    hide Play;
    hide Managed;
    hide Torn;
    hide LeavesTorn;
    hide MountScan.ScanText;
    hide MountScan.SameMounts;
    var events := [Create(CreateRequest(id, a, "", false), 3), Release(map[id := Template(b, "")]), Apply(stamp, 2)];
    var w0 := Empty(map[id := Template(a, "")]);
    InterruptedRun(id, a, b, stamp);
    PlayAppends(w0, events, rest);
    StaysTorn(Play(w0, events), rest);
    TornUnmanaged(Play(w0, events + rest).disk, catalog);
  }

  lemma ApplyCutShort(w: World, stamp: string)
    requires Allowed(w.disk, w.catalog) && TextOf(w.disk.compose) != ""
    requires w.catalog[w.disk.record.value.templateId].compose != w.disk.compose.value
    ensures Torn(Step(w, Apply(stamp, 2)).disk)
  {
    hide ApplyWrites;
    hide PerformAll;
    hide EnvMerge.Merge;
    hide Allowed;
    hide Note;
    ManagedFacts(w.disk, w.catalog);
    ApplyPlan(w.disk, w.catalog, stamp);
    ApplyPrefix(w.disk, w.catalog, stamp, 2);
  }

  lemma {:induction false} PlayAppends(w: World, a: seq<Event>, b: seq<Event>)
    ensures Play(w, a + b) == Play(Play(w, a), b)
  {
    hide Step;
    if b == [] {
      assert a + b == a;
    } else {
      PlayAppends(w, a, b[..|b| - 1]);
      assert (a + b)[..|a + b| - 1] == a + b[..|b| - 1];
    }
  }
}
