/**
 The `GenerateMockImages` background job. For attempt `i` in `1..count` it
 fetches a placeholder image, stores it under `images/mocked/`, appends its row
 to an in-memory batch and broadcasts a progress event; a failed fetch or a
 failed store skips the attempt and the loop goes on. After the loop the batch
 is written in one bulk insert, or a warning is logged when it is empty.

 The placeholder fetch, the unique id and the store are the outside world: each
 attempt's outcome is an `Attempt` value, and `urlOf` is the storage disk's
 path-to-url function.
 */
module MockImages {
  import opened Records
  import opened ProgressEvents
  import opened Effects

  /** The fixed owner of every mocked image. */
  const MockOwner: nat := 2
  const MockMime := "image/png"
  const FetchFailedLog := "Failed to fetch placeholder image"
  const StoreFailedLog := "Error storing mocked image"
  const NoImagesLog := "No images were generated successfully"

  /** What happens on one attempt: the `uniqid()` it draws, whether the
      placeholder fetch returned bytes, and whether storing them raised no
      exception. */
  datatype Attempt = Attempt(uid: string, fetched: bool, stored: bool)

  predicate Survives(a: Attempt) { a.fetched && a.stored }

  /** How many times the loop `for ($i = 1; $i <= $count; $i++)` runs. */
  function Iterations(count: int): nat { if count <= 0 then 0 else count }

  function MockFilename(uid: string): string { "mocked_image_" + uid + ".png" }

  function MockPath(filename: string): string { "images/mocked/" + filename }

  /** The batch entry of a stored attempt. */
  function MockRow(uid: string, urlOf: string -> string): ImageRow
  {
    ImageRow(MockFilename(uid), Some(MockOwner), urlOf(MockPath(MockFilename(uid))), MockMime)
  }

  /** The progress of attempt `i`, `($i / $count) * 100` once turned into a
      percentage; the loop body only runs when `count` is positive, so its
      total is `count` itself. */
  function ProgressOf(i: nat, count: int): Ratio
  {
    Ratio(i, Iterations(count))
  }

  /** The effects of attempt `i`: one error log when it is skipped, a store and a
      broadcast when it survives. */
  function ItemEffects(count: int, i: nat, a: Attempt, urlOf: string -> string): seq<Effect>
  {
    if !a.fetched then [LogError(FetchFailedLog)]
    else if !a.stored then [LogError(StoreFailedLog)]
    else
      [Put(MockPath(MockFilename(a.uid))),
       Broadcast(ProgressEvent(Payload(MockRow(a.uid, urlOf), ProgressOf(i, count))))]
  }

  /** The batch after the first `k` attempts. */
  function BatchUpTo(env: seq<Attempt>, urlOf: string -> string, k: nat): seq<ImageRow>
    requires k <= |env|
  {
    if k == 0 then []
    else BatchUpTo(env, urlOf, k - 1) + (if Survives(env[k - 1]) then [MockRow(env[k - 1].uid, urlOf)] else [])
  }

  /** The effects of the first `k` attempts. */
  function LoopTrace(count: int, env: seq<Attempt>, urlOf: string -> string, k: nat): seq<Effect>
    requires k <= |env|
  {
    if k == 0 then []
    else LoopTrace(count, env, urlOf, k - 1) + ItemEffects(count, k, env[k - 1], urlOf)
  }

  /** The batch the job ends with. */
  function Batch(count: int, env: seq<Attempt>, urlOf: string -> string): seq<ImageRow>
    requires |env| == Iterations(count)
  {
    BatchUpTo(env, urlOf, |env|)
  }

  /** Everything the job does, in order. */
  function JobTrace(count: int, env: seq<Attempt>, urlOf: string -> string): seq<Effect>
    requires |env| == Iterations(count)
  {
    LoopTrace(count, env, urlOf, |env|) + [JobTail(Batch(count, env, urlOf))]
  }

  /** The job's last effect: the bulk insert, or the warning when the batch is empty. */
  function JobTail(batch: seq<ImageRow>): Effect
  {
    if batch != [] then Insert(batch) else LogWarning(NoImagesLog)
  }

  /** A view of the first `k` attempts' effects extends that of the first `k - 1`. */
  lemma LoopStep<U>(count: int, env: seq<Attempt>, urlOf: string -> string, k: nat, f: Effect -> Option<U>)
    requires 0 < k <= |env|
    ensures Project(LoopTrace(count, env, urlOf, k), f)
         == Project(LoopTrace(count, env, urlOf, k - 1), f) + Project(ItemEffects(count, k, env[k - 1], urlOf), f)
  {
    ProjectAppend(LoopTrace(count, env, urlOf, k - 1), ItemEffects(count, k, env[k - 1], urlOf), f);
  }

  /** A view of the whole job is that of its loop followed by that of its last effect. */
  lemma JobStep<U>(count: int, env: seq<Attempt>, urlOf: string -> string, f: Effect -> Option<U>)
    requires |env| == Iterations(count)
    ensures Project(JobTrace(count, env, urlOf), f)
         == Project(LoopTrace(count, env, urlOf, |env|), f) + OptionToSeq(f(JobTail(Batch(count, env, urlOf))))
  {
    var tail := [JobTail(Batch(count, env, urlOf))];
    ProjectAppend(LoopTrace(count, env, urlOf, |env|), tail, f);
    ProjectOne(tail[0], f);
  }

  /** The attempts (numbered from 1) among the first `k` whose fetch and store succeeded. */
  function Survivors(env: seq<Attempt>, k: nat): seq<nat>
    requires k <= |env|
  {
    if k == 0 then [] else Survivors(env, k - 1) + (if Survives(env[k - 1]) then [k] else [])
  }

  predicate Increasing(s: seq<nat>)
  {
    forall a, b :: 0 <= a < b < |s| ==> s[a] < s[b]
  }

  class GenerateMockImages {
    const count: int

    constructor (count: int)
      ensures this.count == count
    {
      this.count := count;
    }

    /** `handle`: runs the attempts in order and returns the batch it built and
        every effect it had. */
    method Handle(env: seq<Attempt>, urlOf: string -> string) returns (batch: seq<ImageRow>, trace: seq<Effect>)
      requires |env| == Iterations(count)
      ensures batch == Batch(count, env, urlOf)
      ensures trace == JobTrace(count, env, urlOf)
    {
      batch := [];
      trace := [];
      var progress := Ratio(0, 0);
      var i := 1;
      while i <= count
        invariant 1 <= i <= |env| + 1
        invariant batch == BatchUpTo(env, urlOf, i - 1)
        invariant trace == LoopTrace(count, env, urlOf, i - 1)
      {
        var attempt := env[i - 1];
        var filename := MockFilename(attempt.uid);
        if !attempt.fetched {
          trace := trace + [LogError(FetchFailedLog)];
          i := i + 1;
          continue;
        }
        if attempt.stored {
          var path := MockPath(filename);
          trace := trace + [Put(path)];
          var url := urlOf(path);
          progress := Ratio(i, count);
          var entry := ImageRow(filename, Some(MockOwner), url, MockMime);
          batch := batch + [entry];
          trace := trace + [Broadcast(ProgressEvent(Payload(entry, progress)))];
        } else {
          trace := trace + [LogError(StoreFailedLog)];
        }
        i := i + 1;
      }
      if batch != [] {
        trace := trace + [Insert(batch)];
      } else {
        trace := trace + [LogWarning(NoImagesLog)];
      }
    }
  }

  // ---------------------------------------------------------------------------
  // Which attempts survive

  /** Attempt `i` survives iff its own fetch and store succeed, whatever happened
      to the others; survivors come in ascending order. */
  lemma {:induction false} SurvivorsExactly(env: seq<Attempt>, k: nat)
    requires k <= |env|
    ensures forall i :: i in Survivors(env, k) <==> 1 <= i <= k && Survives(env[i - 1])
    ensures Increasing(Survivors(env, k))
    ensures |Survivors(env, k)| <= k
    ensures forall j :: 0 <= j < |Survivors(env, k)| ==> 1 <= Survivors(env, k)[j] <= k
  {
    if k > 0 {
      SurvivorsExactly(env, k - 1);
    }
  }

  /** The batch holds one row per survivor, in survivor order. */
  lemma {:induction false} BatchIsSurvivorRows(env: seq<Attempt>, urlOf: string -> string, k: nat)
    requires k <= |env|
    ensures |BatchUpTo(env, urlOf, k)| == |Survivors(env, k)|
    ensures forall j :: 0 <= j < |Survivors(env, k)| ==>
              1 <= Survivors(env, k)[j] <= k &&
              BatchUpTo(env, urlOf, k)[j] == MockRow(env[Survivors(env, k)[j] - 1].uid, urlOf)
  {
    SurvivorsExactly(env, k);
    if k > 0 {
      BatchIsSurvivorRows(env, urlOf, k - 1);
    }
  }

  /** Item `i` enters the final batch iff its fetch and store succeed; the batch
      is in ascending attempt order, has at most `count` rows, and every row is
      a mocked PNG owned by user 2 whose url is that of its
      `images/mocked/mocked_image_<id>.png` path. */
  lemma JobBatch(count: int, env: seq<Attempt>, urlOf: string -> string)
    requires |env| == Iterations(count)
    ensures var s := Survivors(env, |env|);
      && (forall i :: i in s <==> 1 <= i <= count && Survives(env[i - 1]))
      && Increasing(s)
      && |Batch(count, env, urlOf)| == |s| <= Iterations(count)
      && forall j :: 0 <= j < |s| ==>
           1 <= s[j] <= |env| && Batch(count, env, urlOf)[j] == MockRow(env[s[j] - 1].uid, urlOf)
    ensures forall row :: row in Batch(count, env, urlOf) ==>
      && row.userId == Some(2)
      && row.mimeType == "image/png"
      && (exists uid :: row.filename == "mocked_image_" + uid + ".png")
      && row.url == urlOf("images/mocked/" + row.filename)
  {
    SurvivorsExactly(env, |env|);
    BatchIsSurvivorRows(env, urlOf, |env|);
    var s := Survivors(env, |env|);
    var batch := Batch(count, env, urlOf);
    forall row | row in batch
      ensures row.userId == Some(2) && row.mimeType == "image/png"
      ensures exists uid :: row.filename == "mocked_image_" + uid + ".png"
      ensures row.url == urlOf("images/mocked/" + row.filename)
    {
      var j :| 0 <= j < |batch| && batch[j] == row;
      var uid := env[s[j] - 1].uid;
      assert row == MockRow(uid, urlOf);
      assert row.filename == "mocked_image_" + uid + ".png";
    }
  }

  // ---------------------------------------------------------------------------
  // Storage writes, progress events and the bulk insert

  lemma ItemPuts(count: int, i: nat, a: Attempt, urlOf: string -> string)
    ensures Puts(ItemEffects(count, i, a, urlOf)) == (if Survives(a) then [MockPath(MockFilename(a.uid))] else [])
  {
    var t := ItemEffects(count, i, a, urlOf);
    if Survives(a) {
      ProjectTwo(t[0], t[1], PathOf);
      assert t == [t[0], t[1]];
    } else {
      ProjectOne(t[0], PathOf);
      assert t == [t[0]];
    }
  }

  lemma ItemEvents(count: int, i: nat, a: Attempt, urlOf: string -> string)
    ensures Broadcasts(ItemEffects(count, i, a, urlOf)) ==
      (if Survives(a) then [ProgressEvent(Payload(MockRow(a.uid, urlOf), ProgressOf(i, count)))] else [])
  {
    var t := ItemEffects(count, i, a, urlOf);
    if Survives(a) {
      ProjectTwo(t[0], t[1], EventOf);
      assert t == [t[0], t[1]];
    } else {
      ProjectOne(t[0], EventOf);
      assert t == [t[0]];
    }
  }

  lemma ItemWritesNoRows(count: int, i: nat, a: Attempt, urlOf: string -> string)
    ensures Inserts(ItemEffects(count, i, a, urlOf)) == []
    ensures Creates(ItemEffects(count, i, a, urlOf)) == []
  {
    var t := ItemEffects(count, i, a, urlOf);
    if Survives(a) {
      ProjectTwo(t[0], t[1], InsertOf);
      ProjectTwo(t[0], t[1], CreateOf);
      assert t == [t[0], t[1]];
    } else {
      ProjectOne(t[0], InsertOf);
      ProjectOne(t[0], CreateOf);
      assert t == [t[0]];
    }
  }

  /** The paths of the survivors among the first `k` attempts, in order. */
  function PathsUpTo(env: seq<Attempt>, k: nat): seq<string>
    requires k <= |env|
  {
    if k == 0 then []
    else PathsUpTo(env, k - 1) + (if Survives(env[k - 1]) then [MockPath(MockFilename(env[k - 1].uid))] else [])
  }

  /** Attempt `k` adds its path to the loop's stores iff it survives. */
  lemma LoopPutsStep(count: int, env: seq<Attempt>, urlOf: string -> string, k: nat)
    requires 0 < k <= |env|
    requires Puts(LoopTrace(count, env, urlOf, k - 1)) == PathsUpTo(env, k - 1)
    ensures Puts(LoopTrace(count, env, urlOf, k)) == PathsUpTo(env, k)
  {
    LoopStep(count, env, urlOf, k, PathOf);
    ItemPuts(count, k, env[k - 1], urlOf);
  }

  /** The loop stores exactly the survivors' paths: a skipped attempt writes nothing. */
  lemma {:induction false} LoopPuts(count: int, env: seq<Attempt>, urlOf: string -> string, k: nat)
    requires k <= |env|
    ensures Puts(LoopTrace(count, env, urlOf, k)) == PathsUpTo(env, k)
  {
    if k > 0 {
      LoopPuts(count, env, urlOf, k - 1);
      LoopPutsStep(count, env, urlOf, k);
    }
  }

  /** The survivors' paths are those of the batch entries' filenames, one each. */
  lemma {:induction false} PathsAreBatchPaths(env: seq<Attempt>, urlOf: string -> string, k: nat)
    requires k <= |env|
    ensures var paths := PathsUpTo(env, k);
      var batch := BatchUpTo(env, urlOf, k);
      |paths| == |batch| && forall j :: 0 <= j < |paths| ==> paths[j] == MockPath(batch[j].filename)
  {
    if k > 0 {
      PathsAreBatchPaths(env, urlOf, k - 1);
    }
  }

  /** The progress event of attempt `i` when it survives. */
  function MockEvent(count: int, i: nat, a: Attempt, urlOf: string -> string): ProgressEvent
  {
    ProgressEvent(Payload(MockRow(a.uid, urlOf), ProgressOf(i, count)))
  }

  /** The events of the survivors among the first `k` attempts, in order. */
  function EventsUpTo(count: int, env: seq<Attempt>, urlOf: string -> string, k: nat): seq<ProgressEvent>
    requires k <= |env|
  {
    if k == 0 then []
    else EventsUpTo(count, env, urlOf, k - 1) + (if Survives(env[k - 1]) then [MockEvent(count, k, env[k - 1], urlOf)] else [])
  }

  /** Attempt `k` adds its event to the loop's broadcasts iff it survives. */
  lemma LoopEventsStep(count: int, env: seq<Attempt>, urlOf: string -> string, k: nat)
    requires 0 < k <= |env|
    requires Broadcasts(LoopTrace(count, env, urlOf, k - 1)) == EventsUpTo(count, env, urlOf, k - 1)
    ensures Broadcasts(LoopTrace(count, env, urlOf, k)) == EventsUpTo(count, env, urlOf, k)
  {
    LoopStep(count, env, urlOf, k, EventOf);
    ItemEvents(count, k, env[k - 1], urlOf);
  }

  /** The loop broadcasts exactly the survivors' events. */
  lemma {:induction false} LoopEvents(count: int, env: seq<Attempt>, urlOf: string -> string, k: nat)
    requires k <= |env|
    ensures Broadcasts(LoopTrace(count, env, urlOf, k)) == EventsUpTo(count, env, urlOf, k)
  {
    if k > 0 {
      LoopEvents(count, env, urlOf, k - 1);
      LoopEventsStep(count, env, urlOf, k);
    }
  }

  /** Survivor `j`'s event carries the attempt number and row of that survivor. */
  lemma {:induction false} EventsAreSurvivorEvents(count: int, env: seq<Attempt>, urlOf: string -> string, k: nat)
    requires k <= |env|
    ensures |EventsUpTo(count, env, urlOf, k)| == |Survivors(env, k)|
    ensures forall j :: 0 <= j < |Survivors(env, k)| ==>
              1 <= Survivors(env, k)[j] <= k &&
              EventsUpTo(count, env, urlOf, k)[j] ==
                MockEvent(count, Survivors(env, k)[j], env[Survivors(env, k)[j] - 1], urlOf)
  {
    SurvivorsExactly(env, k);
    if k > 0 {
      EventsAreSurvivorEvents(count, env, urlOf, k - 1);
    }
  }

  /** An attempt adds nothing to the loop's inserts. */
  lemma LoopInsertsStep(count: int, env: seq<Attempt>, urlOf: string -> string, k: nat)
    requires 0 < k <= |env|
    requires Inserts(LoopTrace(count, env, urlOf, k - 1)) == []
    ensures Inserts(LoopTrace(count, env, urlOf, k)) == []
  {
    LoopStep(count, env, urlOf, k, InsertOf);
    ItemWritesNoRows(count, k, env[k - 1], urlOf);
  }

  /** The loop itself issues no insert. */
  lemma {:induction false} LoopInsertsNothing(count: int, env: seq<Attempt>, urlOf: string -> string, k: nat)
    requires k <= |env|
    ensures Inserts(LoopTrace(count, env, urlOf, k)) == []
  {
    if k > 0 {
      LoopInsertsNothing(count, env, urlOf, k - 1);
      LoopInsertsStep(count, env, urlOf, k);
    }
  }

  /** An attempt adds nothing to the loop's creates. */
  lemma LoopCreatesStep(count: int, env: seq<Attempt>, urlOf: string -> string, k: nat)
    requires 0 < k <= |env|
    requires Creates(LoopTrace(count, env, urlOf, k - 1)) == []
    ensures Creates(LoopTrace(count, env, urlOf, k)) == []
  {
    LoopStep(count, env, urlOf, k, CreateOf);
    ItemWritesNoRows(count, k, env[k - 1], urlOf);
  }

  /** The loop itself creates no row. */
  lemma {:induction false} LoopCreatesNothing(count: int, env: seq<Attempt>, urlOf: string -> string, k: nat)
    requires k <= |env|
    ensures Creates(LoopTrace(count, env, urlOf, k)) == []
  {
    if k > 0 {
      LoopCreatesNothing(count, env, urlOf, k - 1);
      LoopCreatesStep(count, env, urlOf, k);
    }
  }

  /** The loop itself writes no rows. */
  lemma LoopWritesNoRows(count: int, env: seq<Attempt>, urlOf: string -> string, k: nat)
    requires k <= |env|
    ensures Inserts(LoopTrace(count, env, urlOf, k)) == []
    ensures Creates(LoopTrace(count, env, urlOf, k)) == []
  {
    LoopInsertsNothing(count, env, urlOf, k);
    LoopCreatesNothing(count, env, urlOf, k);
  }

  /** The job stores one path per batch entry, that of the entry's filename, so an
      attempt left out of the batch wrote nothing to storage. */
  lemma JobPuts(count: int, env: seq<Attempt>, urlOf: string -> string)
    requires |env| == Iterations(count)
    ensures var puts := Puts(JobTrace(count, env, urlOf));
      var batch := Batch(count, env, urlOf);
      |puts| == |batch| && forall j :: 0 <= j < |puts| ==> puts[j] == "images/mocked/" + batch[j].filename
  {
    LoopPuts(count, env, urlOf, |env|);
    PathsAreBatchPaths(env, urlOf, |env|);
    JobStep(count, env, urlOf, PathOf);
  }

  /** One progress event per batch entry, in batch order: its payload is the
      entry's four columns plus the progress of the attempt the entry came from. */
  lemma JobEvents(count: int, env: seq<Attempt>, urlOf: string -> string)
    requires |env| == Iterations(count)
    ensures var events := Broadcasts(JobTrace(count, env, urlOf));
      var s := Survivors(env, |env|);
      && |events| == |Batch(count, env, urlOf)| == |s|
      && forall j :: 0 <= j < |events| ==>
           1 <= s[j] <= count &&
           events[j].imageData == Payload(Batch(count, env, urlOf)[j], Ratio(s[j], count))
  {
    LoopEvents(count, env, urlOf, |env|);
    EventsAreSurvivorEvents(count, env, urlOf, |env|);
    BatchIsSurvivorRows(env, urlOf, |env|);
    JobStep(count, env, urlOf, EventOf);
  }

  lemma ProgressOrder(i1: nat, i2: nat, count: nat)
    requires 0 < count && i1 < i2
    ensures Percent(Ratio(i1, count)) < Percent(Ratio(i2, count))
  {
    var c := count as real;
    assert i1 as real / c < i2 as real / c;
  }

  lemma ProgressFull(i: nat, count: nat)
    requires 0 < count
    ensures Percent(Ratio(i, count)) == 100.0 <==> i == count
  {
    var c := count as real;
    if Percent(Ratio(i, count)) == 100.0 {
      assert i as real / c == 1.0;
      assert i as real == c;
    }
  }

  /** The progress percentages broadcast by the job strictly increase. */
  lemma JobProgressIncreasing(count: int, env: seq<Attempt>, urlOf: string -> string)
    requires |env| == Iterations(count)
    ensures var events := Broadcasts(JobTrace(count, env, urlOf));
      forall a, b :: 0 <= a < b < |events| ==>
        events[a].imageData.progress.total > 0 && events[b].imageData.progress.total > 0 &&
        Percent(events[a].imageData.progress) < Percent(events[b].imageData.progress)
  {
    JobEvents(count, env, urlOf);
    SurvivorsExactly(env, |env|);
    var events := Broadcasts(JobTrace(count, env, urlOf));
    var s := Survivors(env, |env|);
    forall a, b | 0 <= a < b < |events|
      ensures events[a].imageData.progress.total > 0 && events[b].imageData.progress.total > 0
      ensures Percent(events[a].imageData.progress) < Percent(events[b].imageData.progress)
    {
      ProgressOrder(s[a], s[b], count);
    }
  }

  /** A progress of 100 is broadcast only for attempt `count` itself. */
  lemma JobProgressFullOnlyLast(count: int, env: seq<Attempt>, urlOf: string -> string, j: nat)
    requires |env| == Iterations(count)
    requires j < |Broadcasts(JobTrace(count, env, urlOf))|
    ensures Broadcasts(JobTrace(count, env, urlOf))[j].imageData.progress.total > 0
    ensures Percent(Broadcasts(JobTrace(count, env, urlOf))[j].imageData.progress) == 100.0 ==>
              count >= 1 && Survives(env[count - 1])
  {
    JobEvents(count, env, urlOf);
    SurvivorsExactly(env, |env|);
    var s := Survivors(env, |env|);
    ProgressFull(s[j], count);
    assert s[j] in s;
  }

  /** When attempt `count` survives, its event carries a progress of 100. */
  lemma JobProgressFullWhenLast(count: int, env: seq<Attempt>, urlOf: string -> string)
    requires |env| == Iterations(count)
    requires count >= 1 && Survives(env[count - 1])
    ensures var events := Broadcasts(JobTrace(count, env, urlOf));
      exists j :: 0 <= j < |events| && events[j].imageData.progress.total > 0 &&
                  Percent(events[j].imageData.progress) == 100.0
  {
    JobEvents(count, env, urlOf);
    SurvivorsExactly(env, |env|);
    var events := Broadcasts(JobTrace(count, env, urlOf));
    var s := Survivors(env, |env|);
    assert count in s;
    var j :| 0 <= j < |s| && s[j] == count;
    ProgressFull(s[j], count);
    assert events[j].imageData.progress == Ratio(count, count);
  }

  /** The job broadcasts a progress of 100 iff attempt `count` itself survived. */
  lemma JobProgressReachesFull(count: int, env: seq<Attempt>, urlOf: string -> string)
    requires |env| == Iterations(count)
    ensures var events := Broadcasts(JobTrace(count, env, urlOf));
      (forall j :: 0 <= j < |events| ==> events[j].imageData.progress.total > 0) &&
      ((exists j :: 0 <= j < |events| && Percent(events[j].imageData.progress) == 100.0) <==>
       (count >= 1 && Survives(env[count - 1])))
  {
    var events := Broadcasts(JobTrace(count, env, urlOf));
    forall j | 0 <= j < |events|
      ensures events[j].imageData.progress.total > 0
      ensures Percent(events[j].imageData.progress) == 100.0 ==> count >= 1 && Survives(env[count - 1])
    {
      JobProgressFullOnlyLast(count, env, urlOf, j);
    }
    if count >= 1 && Survives(env[count - 1]) {
      JobProgressFullWhenLast(count, env, urlOf);
    }
  }

  /** The table is written at most once, by the job's last effect, with the whole
      batch, and only when the batch is non-empty; otherwise the last effect is
      the warning. */
  lemma JobInsertsOnce(count: int, env: seq<Attempt>, urlOf: string -> string)
    requires |env| == Iterations(count)
    ensures var t := JobTrace(count, env, urlOf);
      var batch := Batch(count, env, urlOf);
      && Inserts(t) == (if batch != [] then [batch] else [])
      && Creates(t) == []
      && t[|t| - 1] == (if batch != [] then Insert(batch) else LogWarning("No images were generated successfully"))
  {
    LoopWritesNoRows(count, env, urlOf, |env|);
    JobStep(count, env, urlOf, InsertOf);
    JobStep(count, env, urlOf, CreateOf);
  }

  /** With `count <= 0` the loop body never runs: the job only logs the warning. */
  lemma JobWithNoAttempts(count: int, env: seq<Attempt>, urlOf: string -> string)
    requires count <= 0 && |env| == Iterations(count)
    ensures Batch(count, env, urlOf) == []
    ensures JobTrace(count, env, urlOf) == [LogWarning("No images were generated successfully")]
  {
  }

  /** Every event the job broadcasts goes out as `image.generated` on the public
      channel `images.2`. */
  lemma JobChannels(count: int, env: seq<Attempt>, urlOf: string -> string)
    requires |env| == Iterations(count)
    ensures forall e :: e in Broadcasts(JobTrace(count, env, urlOf)) ==>
      BroadcastOn(e) == PublicChannel("images.2") && BroadcastAs(e) == "image.generated"
  {
    JobEvents(count, env, urlOf);
    JobBatch(count, env, urlOf);
    var events := Broadcasts(JobTrace(count, env, urlOf));
    forall e | e in events
      ensures BroadcastOn(e) == PublicChannel("images.2")
    {
      var j :| 0 <= j < |events| && events[j] == e;
      assert e.imageData.entry in Batch(count, env, urlOf);
      assert UserIdText(Some(2)) == "2";
    }
  }

  /** Every row of the batch has the url of a path the loop stored. */
  lemma BatchBacked(count: int, env: seq<Attempt>, urlOf: string -> string)
    requires |env| == Iterations(count)
    ensures forall row :: row in Batch(count, env, urlOf) ==> Backed(row, LoopTrace(count, env, urlOf, |env|), urlOf)
  {
    var batch := Batch(count, env, urlOf);
    var paths := Puts(LoopTrace(count, env, urlOf, |env|));
    LoopPuts(count, env, urlOf, |env|);
    PathsAreBatchPaths(env, urlOf, |env|);
    JobBatch(count, env, urlOf);
    forall row | row in batch
      ensures Backed(row, LoopTrace(count, env, urlOf, |env|), urlOf)
    {
      var j :| 0 <= j < |batch| && batch[j] == row;
      assert paths[j] in paths && urlOf(paths[j]) == row.url;
    }
  }

  /** Store-then-record: the bulk insert only writes rows whose bytes the job put
      to storage before. */
  lemma JobStoresBeforeRecording(count: int, env: seq<Attempt>, urlOf: string -> string)
    requires |env| == Iterations(count)
    ensures StoredBeforeRecorded(JobTrace(count, env, urlOf), urlOf)
  {
    var batch := Batch(count, env, urlOf);
    var loop := LoopTrace(count, env, urlOf, |env|);
    assert StoredBeforeRecorded([], urlOf);
    LoopWritesNoRows(count, env, urlOf, |env|);
    StoredBeforeRecordedNoWrites([], loop, urlOf);
    assert [] + loop == loop;
    BatchBacked(count, env, urlOf);
    StoredBeforeRecordedSnoc(loop, JobTail(batch), urlOf);
  }
}
