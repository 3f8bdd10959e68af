/** `CardanoNodeMonitor.check_new_release`: one poll of the release feed,
    compared against the last tag the monitor knows and persisted to its
    cache. The feed answer is a parameter; the Telegram warning sent on a
    failed request is recorded in a ghost log. */
module Monitor {
  import opened Release
  import MessageFormat

  /** The Telegram text sent when the request on the feed fails. */
  function FetchWarning(error: string): string
  {
    MessageFormat.WarningSign + " Error checking Cardano node releases: " + error
  }

  /** What one check yields: the last known tag afterwards, the release
      reported as new (if any) and the warnings sent to Telegram. */
  datatype CheckOutcome = CheckOutcome(
    lastRelease: Option<string>,
    returned: Option<ReleaseRecord>,
    warnings: seq<string>)

  /** One check, as a function of the last known tag and the feed answer. */
  function Check(last: Option<string>, fetch: FetchResult): (o: CheckOutcome)
    // A failed request changes nothing, reports nothing and sends exactly one warning.
    ensures fetch.FetchFailed? ==>
              o.lastRelease == last && o.returned == None &&
              o.warnings == [FetchWarning(fetch.error)]
    // A successful request always leaves the fetched tag as the last known one
    // and sends no warning.
    ensures fetch.Fetched? ==>
              o.lastRelease == Some(fetch.release.tagName) && o.warnings == []
    // A release is reported exactly when there was a previous tag and the
    // fetched tag differs from it; what is reported is the fetched release.
    ensures o.returned.Some? <==>
              fetch.Fetched? && last.Some? && last.value != fetch.release.tagName
    ensures o.returned.Some? ==> o.returned.value == fetch.release
  {
    match fetch
    case FetchFailed(error) => CheckOutcome(last, None, [FetchWarning(error)])
    case Fetched(release) =>
      var tag := release.tagName;
      if last.None? then CheckOutcome(Some(tag), None, [])
      else if tag != last.value then CheckOutcome(Some(tag), Some(release), [])
      else CheckOutcome(last, None, [])
  }

  /** The monitor's state: the last known tag in memory, the tag stored in the
      cache file, and (as ghost) the Telegram messages sent so far. */
  class CardanoNodeMonitor {
    var lastRelease: Option<string>
    var persisted: Option<string>
    ghost var sent: seq<string>

    /** The cache file holds the tag kept in memory. */
    ghost predicate Valid()
      reads this
    {
      persisted == lastRelease
    }

    /** `__init__` followed by `_load_cache`: `cached` is the `last_release`
        found in the cache file (None when there is no file). */
    constructor(cached: Option<string>)
      ensures lastRelease == cached && persisted == cached && sent == []
      ensures Valid()
    {
      lastRelease := cached;
      persisted := cached;
      sent := [];
    }

    /** `_save_cache`: the file now holds the tag kept in memory. */
    method SaveCache()
      modifies this
      ensures persisted == lastRelease
      ensures lastRelease == old(lastRelease) && sent == old(sent)
      ensures Valid()
    {
      persisted := lastRelease;
    }

    /** `check_new_release`, with the answer of the feed request as `fetch`. */
    method CheckNewRelease(fetch: FetchResult) returns (result: Option<ReleaseRecord>)
      modifies this
      ensures var o := Check(old(lastRelease), fetch);
              lastRelease == o.lastRelease && result == o.returned &&
              sent == old(sent) + o.warnings
      // The cache is written exactly when the last known tag changes.
      ensures persisted == if lastRelease == old(lastRelease) then old(persisted) else lastRelease
      ensures old(Valid()) ==> Valid()
    {
      match fetch
      case FetchFailed(error) =>
        sent := sent + [FetchWarning(error)];
        result := None;
      case Fetched(latestRelease) =>
        var latestTag := latestRelease.tagName;
        if lastRelease.None? {
          lastRelease := Some(latestTag);
          SaveCache();
          result := None;
        } else if latestTag != lastRelease.value {
          lastRelease := Some(latestTag);
          SaveCache();
          result := Some(latestRelease);
        } else {
          result := None;
        }
    }
  }

  /** A process restart: a new monitor built from what `_save_cache` left in
      the cache file knows the same last tag as the one that wrote it. */
  method Restart(m: CardanoNodeMonitor) returns (restarted: CardanoNodeMonitor)
    requires m.Valid()
    ensures restarted.lastRelease == m.lastRelease && restarted.Valid()
  {
    restarted := new CardanoNodeMonitor(m.persisted);
  }

  /** What a sequence of checks yields, starting from `last`. */
  datatype RunOutcome = RunOutcome(
    lastRelease: Option<string>,
    notified: seq<ReleaseRecord>,
    warnings: seq<string>)

  /** The checks of successive polls, each starting where the previous one left
      the last known tag. */
  function Run(last: Option<string>, fetches: seq<FetchResult>): RunOutcome
    decreases |fetches|
  {
    if fetches == [] then RunOutcome(last, [], [])
    else
      var o := Check(last, fetches[0]);
      var rest := Run(o.lastRelease, fetches[1..]);
      RunOutcome(
        rest.lastRelease,
        (if o.returned.Some? then [o.returned.value] else []) + rest.notified,
        o.warnings + rest.warnings)
  }

  /** The number of failed requests among `fetches`. */
  function Failures(fetches: seq<FetchResult>): nat
  {
    if fetches == [] then 0
    else (if fetches[0].FetchFailed? then 1 else 0) + Failures(fetches[1..])
  }

  /** Checking twice against the same feed answer: the second check reports
      nothing and changes nothing. */
  lemma RecheckIsQuiet(last: Option<string>, release: ReleaseRecord)
    ensures var o := Check(last, Fetched(release));
            Check(o.lastRelease, Fetched(release)) ==
            CheckOutcome(o.lastRelease, None, [])
  {
  }

  /** Without any successful request the last known tag stays. */
  lemma {:induction false} RunAllFailed(last: Option<string>, fetches: seq<FetchResult>)
    requires forall i :: 0 <= i < |fetches| ==> fetches[i].FetchFailed?
    ensures Run(last, fetches).lastRelease == last
    decreases |fetches|
  {
    if fetches != [] {
      assert fetches[0].FetchFailed?;
      var tail := fetches[1..];
      assert forall i :: 0 <= i < |tail| ==> tail[i] == fetches[i + 1];
      RunAllFailed(last, tail);
    }
  }

  /** After a successful request followed only by failed ones, the last known
      tag is the tag of that successful request. */
  lemma {:induction false} RunLastSuccess(last: Option<string>, fetches: seq<FetchResult>, j: nat)
    requires j < |fetches| && fetches[j].Fetched?
    requires forall i :: j < i < |fetches| ==> fetches[i].FetchFailed?
    ensures Run(last, fetches).lastRelease == Some(fetches[j].release.tagName)
    decreases |fetches|
  {
    var o := Check(last, fetches[0]);
    var tail := fetches[1..];
    if j == 0 {
      assert forall i :: 0 <= i < |tail| ==> tail[i] == fetches[i + 1];
      RunAllFailed(o.lastRelease, tail);
    } else {
      assert tail[j - 1] == fetches[j];
      assert forall i :: j - 1 < i < |tail| ==> tail[i] == fetches[i + 1];
      RunLastSuccess(o.lastRelease, tail, j - 1);
    }
  }

  /** Every failed request sends exactly one warning, and nothing else does. */
  lemma {:induction false} RunWarnings(last: Option<string>, fetches: seq<FetchResult>)
    ensures |Run(last, fetches).warnings| == Failures(fetches)
    decreases |fetches|
  {
    if fetches != [] {
      RunWarnings(Check(last, fetches[0]).lastRelease, fetches[1..]);
    }
  }

  /** A reported release never repeats the tag known before it: the first
      report differs from the starting tag, and each report differs from the
      one before it. */
  lemma {:induction false} RunNotifiesChanges(last: Option<string>, fetches: seq<FetchResult>)
    ensures var n := Run(last, fetches).notified;
            (last.Some? && |n| > 0 ==> n[0].tagName != last.value) &&
            forall j :: 0 < j < |n| ==> n[j].tagName != n[j - 1].tagName
    decreases |fetches|
  {
    if fetches != [] {
      var o := Check(last, fetches[0]);
      var rest := Run(o.lastRelease, fetches[1..]);
      RunNotifiesChanges(o.lastRelease, fetches[1..]);
      var n := Run(last, fetches).notified;
      if o.returned.Some? {
        assert n == [o.returned.value] + rest.notified;
        forall j | 0 < j < |n|
          ensures n[j].tagName != n[j - 1].tagName
        {
          if j == 1 {
            assert o.lastRelease == Some(o.returned.value.tagName);
          } else {
            assert n[j] == rest.notified[j - 1] && n[j - 1] == rest.notified[j - 2];
          }
        }
      } else {
        assert n == rest.notified;
      }
    }
  }

  /** Once a tag is known it is never forgotten: no sequence of checks goes
      back to the state of a first run. */
  lemma {:induction false} RunNeverForgetsTag(last: Option<string>, fetches: seq<FetchResult>)
    ensures last.Some? ==> Run(last, fetches).lastRelease.Some?
    decreases |fetches|
  {
    if fetches != [] {
      RunNeverForgetsTag(Check(last, fetches[0]).lastRelease, fetches[1..]);
    }
  }

  /** From a known tag, checks that report nothing leave that tag in place. */
  lemma {:induction false} RunQuietKeepsTag(last: Option<string>, fetches: seq<FetchResult>)
    ensures last.Some? && Run(last, fetches).notified == [] ==>
              Run(last, fetches).lastRelease == last
    decreases |fetches|
  {
    if fetches != [] {
      RunQuietKeepsTag(Check(last, fetches[0]).lastRelease, fetches[1..]);
    }
  }

  /** After a report, the last known tag (and so the cache) is the tag of the
      most recent report: later successful requests either carry that tag or
      are reported themselves. */
  lemma {:induction false} RunKnowsLastReport(last: Option<string>, fetches: seq<FetchResult>)
    ensures var r := Run(last, fetches);
            |r.notified| > 0 ==> r.lastRelease == Some(r.notified[|r.notified| - 1].tagName)
    decreases |fetches|
  {
    if fetches != [] {
      var o := Check(last, fetches[0]);
      var rest := Run(o.lastRelease, fetches[1..]);
      RunKnowsLastReport(o.lastRelease, fetches[1..]);
      RunQuietKeepsTag(o.lastRelease, fetches[1..]);
      var n := Run(last, fetches).notified;
      if o.returned.Some? {
        assert n == [o.returned.value] + rest.notified;
        if rest.notified == [] {
          assert o.lastRelease == Some(o.returned.value.tagName);
        } else {
          assert n[|n| - 1] == rest.notified[|rest.notified| - 1];
        }
      } else {
        assert n == rest.notified;
      }
    }
  }

  /** The first successful check of a monitor without a known tag only seeds
      the tag: whatever follows is reported as if the monitor had started
      from that tag. */
  lemma FirstRunIsQuiet(release: ReleaseRecord, fetches: seq<FetchResult>)
    ensures Run(None, [Fetched(release)] + fetches).notified ==
            Run(Some(release.tagName), fetches).notified
  {
    assert ([Fetched(release)] + fetches)[1..] == fetches;
  }

  /** One more poll in front: its check, then the rest from where it leaves
      the last known tag. */
  lemma RunStep(last: Option<string>, fetch: FetchResult, fetches: seq<FetchResult>)
    ensures var o := Check(last, fetch);
            var rest := Run(o.lastRelease, fetches);
            Run(last, [fetch] + fetches) ==
            RunOutcome(rest.lastRelease,
                       (if o.returned.Some? then [o.returned.value] else []) + rest.notified,
                       o.warnings + rest.warnings)
  {
    assert ([fetch] + fetches)[1..] == fetches;
  }

  /** The comparison is only with the last known tag: if the feed goes back to
      an earlier release, that release is reported a second time. */
  lemma RollbackIsReportedAgain(first: string, r1: ReleaseRecord, r2: ReleaseRecord)
    requires r1.tagName != first && r2.tagName != r1.tagName
    ensures Run(Some(first), [Fetched(r1), Fetched(r2), Fetched(r1)]).notified == [r1, r2, r1]
  {
    RunStep(Some(r2.tagName), Fetched(r1), []);
    RunStep(Some(r1.tagName), Fetched(r2), [Fetched(r1)]);
    RunStep(Some(first), Fetched(r1), [Fetched(r2), Fetched(r1)]);
    assert [Fetched(r1)] + ([Fetched(r2)] + [Fetched(r1)]) == [Fetched(r1), Fetched(r2), Fetched(r1)];
  }
}
