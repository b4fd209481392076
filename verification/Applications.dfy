/**
 The `applications` table: one row per (app, project), overwritten by every reconcile pass.
 The conditional assignments of the upsert are shown to compute facts about the whole history of
 writes, so the row can be read as a summary of that history.
 */
module Applications {
  import opened Wrappers

  datatype Row = Row(
    desiredImage: string,
    liveImage: Option<string>,
    track: string,
    version: string,
    repository: string,
    resourceType: string,
    status: string,
    health: string,
    statusSince: int,
    healthSince: int,
    lastReconciledAt: int)

  /** The columns one pass supplies; an empty `liveImage` is stored as NULL. */
  datatype Write = Write(
    desiredImage: string,
    liveImage: string,
    track: string,
    version: string,
    repository: string,
    resourceType: string,
    status: string,
    health: string)

  function NullIfEmpty(s: string): Option<string> {
    if s == "" then None else Some(s)
  }

  /** INSERT ... ON CONFLICT DO UPDATE, executed at database time `now`. */
  function Upsert(existing: Option<Row>, w: Write, now: int): Row {
    match existing
    case None =>
      Row(w.desiredImage, NullIfEmpty(w.liveImage), w.track, w.version, w.repository, w.resourceType,
          w.status, w.health, now, now, now)
    case Some(row) =>
      var fetched := w.desiredImage != "";
      Row(if fetched then w.desiredImage else row.desiredImage,
          if NullIfEmpty(w.liveImage).None? then row.liveImage else NullIfEmpty(w.liveImage),
          if fetched then w.track else row.track,
          if fetched then w.version else row.version,
          if fetched then w.repository else row.repository,
          if fetched then w.resourceType else row.resourceType,
          w.status,
          w.health,
          if row.status == w.status then row.statusSince else now,
          if row.health == w.health then row.healthSince else now,
          now)
  }

  /** One write together with the database time at which it committed. */
  datatype Entry = Entry(write: Write, at: int)

  function Replay(log: seq<Entry>): Row
    requires log != []
  {
    var last := log[|log| - 1];
    Upsert(if |log| == 1 then None else Some(Replay(log[..|log| - 1])), last.write, last.at)
  }

  function Statuses(log: seq<Entry>): seq<string> {
    seq(|log|, i requires 0 <= i < |log| => log[i].write.status)
  }

  function Healths(log: seq<Entry>): seq<string> {
    seq(|log|, i requires 0 <= i < |log| => log[i].write.health)
  }

  /** `k` starts the maximal run of equal values at the end of `vs`. */
  ghost predicate StartsTrailingRun(vs: seq<string>, k: int) {
    && 0 <= k < |vs|
    && (forall i :: k <= i < |vs| ==> vs[i] == vs[|vs| - 1])
    && (k > 0 ==> vs[k - 1] != vs[|vs| - 1])
  }

  /** `k` is the last write that carried a desired image, or the first write if none did. */
  ghost predicate IsSource(log: seq<Entry>, k: int) {
    && 0 <= k < |log|
    && (forall i :: k < i < |log| ==> log[i].write.desiredImage == "")
    && (log[k].write.desiredImage != "" || k == 0)
  }

  /** `k` is the last write that carried a live image. */
  ghost predicate IsLastLive(log: seq<Entry>, k: int) {
    && 0 <= k < |log|
    && log[k].write.liveImage != ""
    && forall i :: k < i < |log| ==> log[i].write.liveImage == ""
  }

  ghost predicate ManifestColumnsFrom(r: Row, w: Write) {
    && r.desiredImage == w.desiredImage
    && r.track == w.track
    && r.version == w.version
    && r.repository == w.repository
    && r.resourceType == w.resourceType
  }

  /** Extending a history by one write moves the start of the trailing run exactly as the CASE does. */
  lemma TrailingRunStep(vs: seq<string>, v: string, k: int)
    requires StartsTrailingRun(vs, k)
    ensures StartsTrailingRun(vs + [v], if vs[|vs| - 1] == v then k else |vs|)
  {
    var ws := vs + [v];
    assert ws[|ws| - 1] == v;
  }

  lemma ReplaySnoc(init: seq<Entry>, last: Entry)
    requires init != []
    ensures Replay(init + [last]) == Upsert(Some(Replay(init)), last.write, last.at)
  {
    assert (init + [last])[..|init|] == init;
  }

  lemma StatusStep(init: seq<Entry>, last: Entry, k: int)
    requires init != [] && StartsTrailingRun(Statuses(init), k)
    ensures StartsTrailingRun(Statuses(init + [last]), if init[|init| - 1].write.status == last.write.status then k else |init|)
  {
    TrailingRunStep(Statuses(init), last.write.status, k);
    assert Statuses(init + [last]) == Statuses(init) + [last.write.status];
  }

  lemma HealthStep(init: seq<Entry>, last: Entry, k: int)
    requires init != [] && StartsTrailingRun(Healths(init), k)
    ensures StartsTrailingRun(Healths(init + [last]), if init[|init| - 1].write.health == last.write.health then k else |init|)
  {
    TrailingRunStep(Healths(init), last.write.health, k);
    assert Healths(init + [last]) == Healths(init) + [last.write.health];
  }

  /** The "since" columns: time of the first write of the trailing run. */
  lemma {:induction false} SinceIsStartOfTrailingRun(log: seq<Entry>) returns (ks: int, kh: int)
    requires log != []
    ensures StartsTrailingRun(Statuses(log), ks) && Replay(log).statusSince == log[ks].at
    ensures StartsTrailingRun(Healths(log), kh) && Replay(log).healthSince == log[kh].at
    ensures Replay(log).status == log[|log| - 1].write.status
    ensures Replay(log).health == log[|log| - 1].write.health
  {
    if |log| == 1 {
      ks, kh := 0, 0;
    } else {
      var init, last := log[..|log| - 1], log[|log| - 1];
      assert log == init + [last];
      ks, kh := SinceIsStartOfTrailingRun(init);
      ReplaySnoc(init, last);
      StatusStep(init, last, ks);
      HealthStep(init, last, kh);
      ks := if init[|init| - 1].write.status == last.write.status then ks else |init|;
      kh := if init[|init| - 1].write.health == last.write.health then kh else |init|;
    }
  }

  /** All manifest columns come from one single write, whatever the order of failed fetches. */
  lemma {:induction false} ManifestColumnsComeFromOneWrite(log: seq<Entry>) returns (k: int)
    requires log != []
    ensures IsSource(log, k) && ManifestColumnsFrom(Replay(log), log[k].write)
  {
    if |log| == 1 {
      k := 0;
    } else {
      k := ManifestColumnsComeFromOneWrite(log[..|log| - 1]);
      if log[|log| - 1].write.desiredImage != "" {
        k := |log| - 1;
      }
    }
  }

  /** Either some write carried a live image and the row shows the last one, or none ever did. */
  ghost predicate LiveImageFrom(log: seq<Entry>, live: Option<string>) {
    match live
    case None => forall i :: 0 <= i < |log| ==> log[i].write.liveImage == ""
    case Some(image) => exists k :: IsLastLive(log, k) && log[k].write.liveImage == image
  }

  lemma {:induction false} LiveImageIsLastNonNull(log: seq<Entry>)
    requires log != []
    ensures LiveImageFrom(log, Replay(log).liveImage)
  {
    var last := log[|log| - 1];
    if last.write.liveImage != "" {
      assert IsLastLive(log, |log| - 1);
    } else if |log| > 1 {
      var init := log[..|log| - 1];
      LiveImageIsLastNonNull(init);
      if Replay(init).liveImage.Some? {
        var k :| IsLastLive(init, k) && init[k].write.liveImage == Replay(init).liveImage.value;
        assert IsLastLive(log, k);
      }
    }
  }

  lemma TrailingRunIsUnique(vs: seq<string>, j: int, k: int)
    requires StartsTrailingRun(vs, j) && StartsTrailingRun(vs, k)
    ensures j == k
  {
    assert j > 0 ==> !(k <= j - 1);
    assert k > 0 ==> !(j <= k - 1);
  }

  lemma SourceIsUnique(log: seq<Entry>, j: int, k: int)
    requires IsSource(log, j) && IsSource(log, k)
    ensures j == k
  {
    assert log[j].write.desiredImage != "" ==> !(k < j);
    assert log[k].write.desiredImage != "" ==> !(j < k);
  }

  /** The row left by any sequence of upserts, read entirely off that sequence. */
  lemma UpsertRefinesWriteLog(log: seq<Entry>, ks: int, kh: int, source: int)
    requires log != []
    requires StartsTrailingRun(Statuses(log), ks)
    requires StartsTrailingRun(Healths(log), kh)
    requires IsSource(log, source)
    ensures Replay(log).statusSince == log[ks].at
    ensures Replay(log).healthSince == log[kh].at
    ensures ManifestColumnsFrom(Replay(log), log[source].write)
    ensures LiveImageFrom(log, Replay(log).liveImage)
    ensures Replay(log).status == log[|log| - 1].write.status
    ensures Replay(log).health == log[|log| - 1].write.health
    ensures Replay(log).lastReconciledAt == log[|log| - 1].at
  {
    var s, h := SinceIsStartOfTrailingRun(log);
    var m := ManifestColumnsComeFromOneWrite(log);
    TrailingRunIsUnique(Statuses(log), s, ks);
    TrailingRunIsUnique(Healths(log), h, kh);
    SourceIsUnique(log, m, source);
    LiveImageIsLastNonNull(log);
  }
}
