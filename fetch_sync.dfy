/**
 * Keeping a directory of fetched samples in sync with a fetch configuration: every source
 * owns a subdirectory holding its samples and a `sync-stamp` recording the configuration it
 * was fetched with; a sync refetches exactly the sources whose stamp is missing or differs.
 * The file system is a value passed in and returned; what the network and the disk do is
 * given as each source's `FetchRun`.
 */
module FetchSync {
  import opened Wrappers

  /** `DebianSourceInfo`. */
  datatype DebianInfo = DebianInfo(mirror: string, debugMirror: Option<string>, distribution: string,
                                   debugDistribution: string, arch: string, packages: seq<string>)

  /** `SpecificSourceInfo`: where a source's samples come from. */
  datatype Specific = Debian(debian: DebianInfo) | Byteweight(experimentsPath: string)

  /** `SourceInfo`. */
  datatype SourceInfo = SourceInfo(subdirectory: string, specific: Specific)

  /** A `sync-stamp` file on disk: a configuration, or text that does not parse, or unreadable. */
  datatype StampFile = Stamped(config: Specific) | Unparsable | Unreadable

  /** What `remove_dir_all` on a subdirectory does. */
  datatype ClearOutcome = Removed | NotFound | ClearFailed

  /**
   * What fetching one source does: the clearing of its subdirectory, the items of its sample
   * stream (a sample name or an error), and whether writing its stamp afterwards succeeds when
   * the subdirectory exists (the disk is not full, the permissions allow it).
   */
  datatype FetchRun = FetchRun(clear: ClearOutcome, items: seq<Result<string>>, stampWritable: bool)

  /**
   * The output directory: each subdirectory's stamp file and the sample paths written under it,
   * plus the subdirectories fetched so far, in order.
   */
  datatype Dir = Dir(stamps: map<string, StampFile>, samples: map<string, seq<string>>, fetches: seq<string>)

  function Lookup<K, V>(m: map<K, V>, k: K): Option<V> {
    if k in m then Some(m[k]) else None
  }

  /** The name a sample of a source is stored under: `subdirectory/name`. */
  function SourceName(subdirectory: string, name: string): string {
    subdirectory + "/" + name
  }

  /** Samples of sources in different subdirectories (none holding a `/`) never share a name. */
  lemma SourceNameInjective(d1: string, n1: string, d2: string, n2: string)
    requires '/' !in d1 && '/' !in d2
    requires SourceName(d1, n1) == SourceName(d2, n2)
    ensures d1 == d2 && n1 == n2
  {
    var s := SourceName(d1, n1);
    assert s[|d1|] == '/' && SourceName(d2, n2)[|d2|] == '/';
    assert forall i :: 0 <= i < |d1| ==> s[i] == d1[i] && s[i] != '/';
    assert forall i :: 0 <= i < |d2| ==> s[i] == d2[i] && s[i] != '/';
    assert |d1| == |d2|;
    assert d1 == s[..|d1|] && d2 == s[..|d2|];
    assert n1 == s[|d1| + 1..];
  }

  /** `fetch_source`: every sample name of the source's stream prefixed with its subdirectory. */
  function FetchSource(source: SourceInfo, items: seq<Result<string>>): (r: seq<Result<string>>)
    ensures |r| == |items|
    ensures forall k :: 0 <= k < |items| ==>
      (items[k].Ok? ==> r[k] == Ok(SourceName(source.subdirectory, items[k].value)))
      && (!items[k].Ok? ==> r[k] == items[k])
  {
    seq(|items|, k requires 0 <= k < |items| =>
      if items[k].Ok? then Ok(SourceName(source.subdirectory, items[k].value)) else items[k])
  }

  /** The stream holds no error. */
  predicate Completes(items: seq<Result<string>>) {
    forall k :: 0 <= k < |items| ==> items[k].Ok?
  }

  /** The names of the stream up to its first error. */
  function NamesBeforeError(items: seq<Result<string>>): (r: seq<string>)
    ensures |r| <= |items|
    ensures forall k :: 0 <= k < |r| ==> items[k] == Ok(r[k])
    ensures |r| < |items| <==> !Completes(items)
    ensures |r| < |items| ==> !items[|r|].Ok?
  {
    if items == [] || !items[0].Ok? then []
    else
      var rest := NamesBeforeError(items[1..]);
      assert forall k :: 1 <= k < |items| ==> items[1..][k - 1] == items[k];
      [items[0].value] + rest
  }

  /**
   * `read_stamp`: a missing stamp is `None`, a readable one is its parsed configuration, and
   * a stamp that cannot be read or parsed is an error.
   */
  function ReadStamp(file: Option<StampFile>): (r: Result<Option<Specific>>)
    ensures !r.Panic?
    ensures r == Ok(None) <==> file == None
    ensures forall c :: r == Ok(Some(c)) <==> file == Some(Stamped(c))
  {
    match file
    case None => Ok(None)
    case Some(Stamped(config)) => Ok(Some(config))
    case Some(Unparsable) => Err("failed to parse sync-stamp")
    case Some(Unreadable) => Err("failed to read sync-stamp")
  }

  /** A source is outdated when its stamp is missing or records another configuration. */
  predicate IsOutdated(stamps: map<string, StampFile>, source: SourceInfo) {
    ReadStamp(Lookup(stamps, source.subdirectory)) != Ok(Some(source.specific))
  }

  /** Every source's stamp can be read (or is missing). */
  predicate Readable(sources: seq<SourceInfo>, stamps: map<string, StampFile>) {
    forall k :: 0 <= k < |sources| ==> ReadStamp(Lookup(stamps, sources[k].subdirectory)).Ok?
  }

  /** The outdated sources, in configuration order. */
  function Outdated(sources: seq<SourceInfo>, stamps: map<string, StampFile>): seq<SourceInfo> {
    if sources == [] then []
    else
      var init := Outdated(sources[..|sources| - 1], stamps);
      if IsOutdated(stamps, sources[|sources| - 1]) then init + [sources[|sources| - 1]] else init
  }

  /** The outdated list holds exactly the outdated sources. */
  lemma {:induction false} OutdatedMembers(sources: seq<SourceInfo>, stamps: map<string, StampFile>)
    ensures forall s :: s in Outdated(sources, stamps) <==> s in sources && IsOutdated(stamps, s)
  {
    if sources != [] {
      var n := |sources| - 1;
      OutdatedMembers(sources[..n], stamps);
      assert sources == sources[..n] + [sources[n]];
    }
  }

  /** No two sources share a subdirectory. */
  predicate Distinct(sources: seq<SourceInfo>) {
    forall i, j :: 0 <= i < j < |sources| ==> sources[i].subdirectory != sources[j].subdirectory
  }

  /**
   * The duplicate check: the subdirectories are inserted into a set in order, and the first
   * one already present is reported.
   */
  method FindDuplicate(sources: seq<SourceInfo>) returns (dup: Option<string>)
    ensures dup.None? <==> Distinct(sources)
    ensures dup.Some? ==> exists i, j :: 0 <= i < j < |sources| && sources[i].subdirectory == dup.value
                                         && sources[j].subdirectory == dup.value
  {
    var subdirectories: set<string> := {};
    for k := 0 to |sources|
      invariant Distinct(sources[..k])
      invariant subdirectories == set i | 0 <= i < k :: sources[i].subdirectory
    {
      var subdirectory := sources[k].subdirectory;
      if subdirectory in subdirectories {
        return Some(subdirectory);
      }
      subdirectories := subdirectories + {subdirectory};
    }
    assert sources[..|sources|] == sources;
    return None;
  }

  /**
   * The outdated scan: each source's stamp is read (an error ends the sync), and the sources
   * whose stamp is missing or differs are collected in order.
   */
  method FindOutdated(sources: seq<SourceInfo>, stamps: map<string, StampFile>) returns (r: Result<seq<SourceInfo>>)
    ensures !r.Panic?
    ensures r.Ok? <==> Readable(sources, stamps)
    ensures r.Ok? ==> r.value == Outdated(sources, stamps)
  {
    var outdated := [];
    for k := 0 to |sources|
      invariant Readable(sources[..k], stamps)
      invariant outdated == Outdated(sources[..k], stamps)
    {
      assert sources[..k + 1][..k] == sources[..k];
      var source := sources[k];
      var stamp := ReadStamp(Lookup(stamps, source.subdirectory));
      if !stamp.Ok? {
        return Err(stamp.reason);
      }
      if !(stamp.value.Some? && stamp.value.value == source.specific) {
        outdated := outdated + [source];
      }
    }
    assert sources[..|sources|] == sources;
    return Ok(outdated);
  }

  /**
   * Whether fetching and stamping a source succeeds: the subdirectory is cleared, the stream
   * holds no error, and the stamp can be written. Only writing a sample re-creates the cleared
   * subdirectory, so a stream without samples leaves no directory for the stamp.
   */
  predicate FetchSucceeds(run: FetchRun) {
    run.clear != ClearFailed && Completes(run.items) && run.items != [] && run.stampWritable
  }

  /**
   * `fetch_source_to_directory` followed by `write_stamp`: the subdirectory is removed (one
   * already missing is fine), taking its stamp with it, then each sample of the stream is
   * written until the first error, its parent directories created first; the stamp is written
   * only when the whole stream succeeded, and `std::fs::write` fails when no sample re-created
   * the subdirectory.
   */
  method FetchAndStamp(source: SourceInfo, run: FetchRun, dir: Dir) returns (r: Result<()>, after: Dir)
    ensures !r.Panic?
    ensures after.fetches == dir.fetches + [source.subdirectory]
    ensures run.clear == ClearFailed ==> r.Err? && after.stamps == dir.stamps && after.samples == dir.samples
    ensures run.clear != ClearFailed ==>
      after.samples == dir.samples[source.subdirectory :=
        NamesBeforeError(FetchSource(source, run.items))]
    ensures r.Ok? <==> FetchSucceeds(run)
    ensures r.Ok? ==> after.stamps == dir.stamps[source.subdirectory := Stamped(source.specific)]
    ensures run.clear != ClearFailed && !r.Ok? ==> after.stamps == dir.stamps - {source.subdirectory}
  {
    var d := source.subdirectory;
    var fetches := dir.fetches + [d];
    if run.clear == ClearFailed {
      return Err("failed to remove directory"), Dir(dir.stamps, dir.samples, fetches);
    }
    var stamps := dir.stamps - {d};
    var stream := FetchSource(source, run.items);
    var written: seq<string> := [];
    for k := 0 to |stream|
      invariant forall i :: 0 <= i < k ==> stream[i].Ok?
      invariant written == NamesBeforeError(stream[..k])
    {
      var item := stream[k];
      if !item.Ok? {
        NamesStopAt(stream, k);
        return Err("failed while fetching " + d), Dir(stamps, dir.samples[d := written], fetches);
      }
      NamesSnoc(stream, k);
      written := written + [item.value];
    }
    assert stream[..|stream|] == stream;
    var samples := dir.samples[d := written];
    if written == [] || !run.stampWritable {
      return Err("Failed to write stamp for source " + d), Dir(stamps, samples, fetches);
    }
    r, after := Ok(()), Dir(stamps[d := Stamped(source.specific)], samples, fetches);
  }

  /** A stream without errors names every item, in order. */
  lemma NamesComplete(items: seq<Result<string>>)
    requires Completes(items)
    ensures |NamesBeforeError(items)| == |items|
    ensures forall i :: 0 <= i < |items| ==> NamesBeforeError(items)[i] == items[i].value
  {
  }

  /** One more item without error adds its name. */
  lemma NamesSnoc(items: seq<Result<string>>, k: nat)
    requires k < |items| && forall i :: 0 <= i <= k ==> items[i].Ok?
    ensures NamesBeforeError(items[..k + 1]) == NamesBeforeError(items[..k]) + [items[k].value]
  {
    NamesComplete(items[..k + 1]);
    NamesComplete(items[..k]);
  }

  /** At the first error the names stop: they are the names of the items before it. */
  lemma NamesStopAt(items: seq<Result<string>>, k: nat)
    requires k < |items| && !items[k].Ok? && forall i :: 0 <= i < k ==> items[i].Ok?
    ensures NamesBeforeError(items) == NamesBeforeError(items[..k])
  {
    NamesComplete(items[..k]);
    var all := NamesBeforeError(items);
    assert |all| == k;
  }

  /** Every source's stamp records its own configuration. */
  predicate AllStamped(sources: seq<SourceInfo>, stamps: map<string, StampFile>) {
    forall k :: 0 <= k < |sources| ==> Lookup(stamps, sources[k].subdirectory) == Some(Stamped(sources[k].specific))
  }

  /** The subdirectories of the sources, in order. */
  function Subdirectories(sources: seq<SourceInfo>): (r: seq<string>)
    ensures |r| == |sources| && forall k :: 0 <= k < |sources| ==> r[k] == sources[k].subdirectory
  {
    seq(|sources|, k requires 0 <= k < |sources| => sources[k].subdirectory)
  }

  /**
   * `sync_sources_to_directory`: a subdirectory used twice, or a stamp that cannot be read,
   * fails before anything is fetched; otherwise the outdated sources are fetched and stamped in
   * configuration order, stopping at the first failure. After a successful sync every source
   * is stamped with its configuration.
   */
  method SyncSources(sources: seq<SourceInfo>, run: SourceInfo -> FetchRun, dir: Dir) returns (r: Result<()>, after: Dir)
    ensures !r.Panic?
    ensures !Distinct(sources) || !Readable(sources, dir.stamps) ==> r.Err? && after == dir
    ensures r.Ok? <==> (Distinct(sources) && Readable(sources, dir.stamps)
                        && AllFetchesSucceed(Outdated(sources, dir.stamps), run))
    ensures r.Ok? ==> after.fetches == dir.fetches + Subdirectories(Outdated(sources, dir.stamps))
    ensures r.Ok? ==> AllStamped(sources, after.stamps)
    ensures r.Err? && Distinct(sources) && Readable(sources, dir.stamps) ==>
      exists k :: FirstFailedFetch(Outdated(sources, dir.stamps), run, k)
                  && after.fetches == dir.fetches + Subdirectories(Outdated(sources, dir.stamps)[..k + 1])
    ensures StampedAfterFetch(sources, run, dir, after)
  {
    var dup := FindDuplicate(sources);
    if dup.Some? {
      return Err("subdirectory " + dup.value + " is used for multiple sources"), dir;
    }
    var outdated := FindOutdated(sources, dir.stamps);
    if !outdated.Ok? {
      return Err(outdated.reason), dir;
    }
    var todo := outdated.value;
    OutdatedMembers(sources, dir.stamps);
    OutdatedDistinct(sources, dir.stamps);
    after := dir;
    for k := 0 to |todo|
      invariant after.fetches == dir.fetches + Subdirectories(todo[..k])
      invariant AllStamped(todo[..k], after.stamps)
      invariant forall d :: d !in Subdirectories(todo[..k]) ==> Lookup(after.stamps, d) == Lookup(dir.stamps, d)
      invariant StampedAfterFetch(sources, run, dir, after)
      invariant AllFetchesSucceed(todo[..k], run)
    {
      var source := todo[k];
      var result, next := FetchAndStamp(source, run(source), after);
      SyncStep(sources, todo, k, run, dir, after, next, result.Ok?);
      after := next;
      if !result.Ok? {
        assert FirstFailedFetch(todo, run, k);
        return Err("Fetching source " + source.subdirectory), after;
      }
      assert todo[..k + 1] == todo[..k] + [source];
    }
    assert todo[..|todo|] == todo;
    r := Ok(());
    SyncDone(sources, dir, after);
  }

  /** Every source's fetch and stamp succeed. */
  predicate AllFetchesSucceed(todo: seq<SourceInfo>, run: SourceInfo -> FetchRun) {
    forall i :: 0 <= i < |todo| ==> FetchSucceeds(run(todo[i]))
  }

  /** The `k`-th fetch is the first that fails. */
  predicate FirstFailedFetch(todo: seq<SourceInfo>, run: SourceInfo -> FetchRun, k: int) {
    0 <= k < |todo| && !FetchSucceeds(run(todo[k])) && AllFetchesSucceed(todo[..k], run)
  }

  /**
   * A stamp that now records a source's configuration and did not before was written by a
   * fetch of that source whose stream completed.
   */
  ghost predicate StampedAfterFetch(sources: seq<SourceInfo>, run: SourceInfo -> FetchRun, dir: Dir, after: Dir) {
    forall k :: 0 <= k < |sources|
      && Lookup(after.stamps, sources[k].subdirectory) == Some(Stamped(sources[k].specific))
      && Lookup(dir.stamps, sources[k].subdirectory) != Some(Stamped(sources[k].specific))
      ==> Completes(run(sources[k]).items)
  }

  /** One fetch of the sync keeps the loop's invariants. */
  lemma SyncStep(sources: seq<SourceInfo>, todo: seq<SourceInfo>, k: nat, run: SourceInfo -> FetchRun,
                 dir: Dir, before: Dir, next: Dir, ok: bool)
    requires Distinct(sources) && Distinct(todo) && k < |todo|
    requires forall s :: s in todo ==> s in sources
    requires before.fetches == dir.fetches + Subdirectories(todo[..k])
    requires AllStamped(todo[..k], before.stamps)
    requires forall d :: d !in Subdirectories(todo[..k]) ==> Lookup(before.stamps, d) == Lookup(dir.stamps, d)
    requires StampedAfterFetch(sources, run, dir, before)
    requires next.fetches == before.fetches + [todo[k].subdirectory]
    requires ok ==> next.stamps == before.stamps[todo[k].subdirectory := Stamped(todo[k].specific)]
                    && Completes(run(todo[k]).items)
    requires !ok ==> next.stamps == before.stamps - {todo[k].subdirectory} || next.stamps == before.stamps
    ensures next.fetches == dir.fetches + Subdirectories(todo[..k + 1])
    ensures ok ==> AllStamped(todo[..k + 1], next.stamps)
    ensures forall d :: d !in Subdirectories(todo[..k + 1]) ==> Lookup(next.stamps, d) == Lookup(dir.stamps, d)
    ensures StampedAfterFetch(sources, run, dir, next)
  {
    assert Subdirectories(todo[..k + 1]) == Subdirectories(todo[..k]) + [todo[k].subdirectory];
    var d := todo[k].subdirectory;
    assert todo[k] in todo;
    var j :| 0 <= j < |sources| && sources[j] == todo[k];
    forall i | 0 <= i < |sources|
      && Lookup(next.stamps, sources[i].subdirectory) == Some(Stamped(sources[i].specific))
      && Lookup(dir.stamps, sources[i].subdirectory) != Some(Stamped(sources[i].specific))
      ensures Completes(run(sources[i]).items)
    {
      if sources[i].subdirectory == d {
        assert i == j;
      }
    }
  }

  /** The outdated sources of distinct sources are distinct. */
  lemma {:induction false} OutdatedDistinct(sources: seq<SourceInfo>, stamps: map<string, StampFile>)
    requires Distinct(sources)
    ensures Distinct(Outdated(sources, stamps))
  {
    if sources != [] {
      var n := |sources| - 1;
      var init := sources[..n];
      OutdatedDistinct(init, stamps);
      OutdatedMembers(init, stamps);
      var before := Outdated(init, stamps);
      forall i | 0 <= i < |before| ensures before[i].subdirectory != sources[n].subdirectory {
        assert before[i] in before;
        var j :| 0 <= j < n && init[j] == before[i];
      }
    }
  }

  /** After the last fetch, every source is stamped: the outdated ones by the sync itself. */
  lemma SyncDone(sources: seq<SourceInfo>, dir: Dir, after: Dir)
    requires Distinct(sources)
    requires AllStamped(Outdated(sources, dir.stamps), after.stamps)
    requires forall d :: d !in Subdirectories(Outdated(sources, dir.stamps)) ==> Lookup(after.stamps, d) == Lookup(dir.stamps, d)
    ensures AllStamped(sources, after.stamps)
  {
    var todo := Outdated(sources, dir.stamps);
    OutdatedMembers(sources, dir.stamps);
    forall k | 0 <= k < |sources| ensures Lookup(after.stamps, sources[k].subdirectory) == Some(Stamped(sources[k].specific)) {
      if sources[k].subdirectory in Subdirectories(todo) {
        var i :| 0 <= i < |todo| && todo[i].subdirectory == sources[k].subdirectory;
        assert todo[i] in todo;
        var j :| 0 <= j < |sources| && sources[j] == todo[i];
        assert j == k;
      } else {
        assert sources[k] in sources;
        var file := Lookup(dir.stamps, sources[k].subdirectory);
        assert ReadStamp(file) == Ok(Some(sources[k].specific));
        assert file == Some(Stamped(sources[k].specific));
      }
    }
  }

  /** Once every source is stamped with its configuration, a sync finds nothing to fetch. */
  lemma {:induction false} StampedNothingOutdated(sources: seq<SourceInfo>, stamps: map<string, StampFile>)
    requires AllStamped(sources, stamps)
    ensures Readable(sources, stamps)
    ensures Outdated(sources, stamps) == []
  {
    if sources != [] {
      var init := sources[..|sources| - 1];
      assert forall k :: 0 <= k < |init| ==> init[k] == sources[k];
      StampedNothingOutdated(init, stamps);
    }
  }
}
