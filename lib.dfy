/**
 * The scheduled run of the bridge: collect the bookmarks that the ledger has
 * not seen, oldest first, post each one and record it in the ledger.
 */
module Lib {
  import opened Wrappers
  import opened Utf8
  import opened Hatebu

  // ---------------------------------------------------------------------
  // `run`: dedupe, post, record
  // ---------------------------------------------------------------------

  /** The three settings read from the worker environment. */
  datatype Config = Config(hatenaId: Bytes, identifier: Bytes, password: Bytes)

  datatype RunError =
    | ConfigMissing
    | FeedFailed
    | LedgerReadFailed(key: Bytes)
    | LoginFailed
    | LedgerWriteFailed(key: Bytes)

  /** What the run does to the ledger and to Bluesky, in the order it does it. */
  datatype Event =
    | LedgerRead(key: Bytes)
    | Login
    | Posted(key: Bytes, succeeded: bool)
    | LedgerWrite(key: Bytes)

  function Reversed<T>(s: seq<T>): (r: seq<T>)
    ensures |r| == |s|
    ensures forall i | 0 <= i < |s| :: r[i] == s[|s| - 1 - i]
  {
    if s == [] then [] else [s[|s| - 1]] + Reversed(s[..|s| - 1])
  }

  /** The collection loop so far: entries kept, ledger reads made, and the key whose read failed. */
  datatype Scan = Scan(kept: seq<Entry>, lookups: seq<Event>, failed: Option<Bytes>)

  /** The first loop of `run` over `pending` (the feed, reversed). */
  function Collect<R>(pending: seq<Entry>, store: map<Bytes, R>, readFails: set<Bytes>): Scan
  {
    if pending == [] then Scan([], [], None)
    else
      var scan := Collect(pending[..|pending| - 1], store, readFails);
      var e := pending[|pending| - 1];
      if scan.failed.Some? then scan
      else if e.url in readFails then Scan(scan.kept, scan.lookups + [LedgerRead(e.url)], Some(e.url))
      else if e.url in store then Scan(scan.kept, scan.lookups + [LedgerRead(e.url)], None)
      else Scan(scan.kept + [e], scan.lookups + [LedgerRead(e.url)], None)
  }

  /** The posting loop so far: the ledger, the events, and the key whose write failed. */
  datatype Publishing<R> = Publishing(ledger: map<Bytes, R>, events: seq<Event>, failed: Option<Bytes>)

  /** The second loop of `run`; `post` stands for `post2bsky`, `None` being any failure. */
  function Publish<A, R>(agent: A, entries: seq<Entry>, store: map<Bytes, R>,
                         post: (A, Entry) -> Option<R>, writeFails: set<Bytes>): Publishing<R>
  {
    if entries == [] then Publishing(store, [], None)
    else
      var p := Publish(agent, entries[..|entries| - 1], store, post, writeFails);
      var e := entries[|entries| - 1];
      if p.failed.Some? then p
      else match post(agent, e)
        case None => Publishing(p.ledger, p.events + [Posted(e.url, false)], None)
        case Some(receipt) =>
          if e.url in writeFails
          then Publishing(p.ledger, p.events + [Posted(e.url, true), LedgerWrite(e.url)], Some(e.url))
          else Publishing(p.ledger[e.url := receipt], p.events + [Posted(e.url, true), LedgerWrite(e.url)], None)
  }

  datatype Outcome<R> = Outcome(result: Result<nat, RunError>, ledger: map<Bytes, R>, trace: seq<Event>)

  /**
   * The whole run as a function of its collaborators: `listBookmarks` (the
   * feed, newest first), the ledger `store` with the keys whose read fails,
   * `login` (`BskyAgent::new`), `post` and the keys whose write fails.
   */
  function RunSpec<A, R>(config: Option<Config>, listBookmarks: Bytes -> Option<seq<Entry>>,
                         store: map<Bytes, R>, readFails: set<Bytes>, login: (Bytes, Bytes) -> Option<A>,
                         post: (A, Entry) -> Option<R>, writeFails: set<Bytes>): Outcome<R>
  {
    match config
    case None => Outcome(Failure(ConfigMissing), store, [])
    case Some(cfg) =>
      match listBookmarks(cfg.hatenaId)
      case None => Outcome(Failure(FeedFailed), store, [])
      case Some(feed) =>
        var scan := Collect(Reversed(feed), store, readFails);
        if scan.failed.Some? then Outcome(Failure(LedgerReadFailed(scan.failed.value)), store, scan.lookups)
        else if scan.kept == [] then Outcome(Success(0), store, scan.lookups)
        else match login(cfg.identifier, cfg.password)
          case None => Outcome(Failure(LoginFailed), store, scan.lookups + [Login])
          case Some(agent) =>
            var pub := Publish(agent, scan.kept, store, post, writeFails);
            var trace := scan.lookups + [Login] + pub.events;
            if pub.failed.Some? then Outcome(Failure(LedgerWriteFailed(pub.failed.value)), pub.ledger, trace)
            else Outcome(Success(|scan.kept|), pub.ledger, trace)
  }

  /** Once a read has failed, the rest of the feed is not looked at. */
  lemma {:induction false} CollectStops<R>(pending: seq<Entry>, store: map<Bytes, R>, readFails: set<Bytes>, i: nat)
    requires i <= |pending| && Collect(pending[..i], store, readFails).failed.Some?
    ensures Collect(pending, store, readFails) == Collect(pending[..i], store, readFails)
    decreases |pending| - i
  {
    if i < |pending| {
      assert pending[..i + 1][..i] == pending[..i];
      CollectStops(pending, store, readFails, i + 1);
    } else {
      assert pending[..i] == pending;
    }
  }

  /** Once a write has failed, no further entry is posted. */
  lemma {:induction false} PublishStops<A, R>(agent: A, entries: seq<Entry>, store: map<Bytes, R>,
                                              post: (A, Entry) -> Option<R>, writeFails: set<Bytes>, i: nat)
    requires i <= |entries| && Publish(agent, entries[..i], store, post, writeFails).failed.Some?
    ensures Publish(agent, entries, store, post, writeFails) == Publish(agent, entries[..i], store, post, writeFails)
    decreases |entries| - i
  {
    if i < |entries| {
      assert entries[..i + 1][..i] == entries[..i];
      PublishStops(agent, entries, store, post, writeFails, i + 1);
    } else {
      assert entries[..i] == entries;
    }
  }

  /**
   * The first loop of `run`: walks the feed from its last (oldest) entry to
   * its first, reads the ledger for each and keeps those it has no value for;
   * a failed read ends the walk.
   */
  method CollectNew<R>(feed: seq<Entry>, store: map<Bytes, R>, readFails: set<Bytes>)
    returns (entries: seq<Entry>, lookups: seq<Event>, failed: Option<Bytes>)
    ensures Scan(entries, lookups, failed) == Collect(Reversed(feed), store, readFails)
  {
    ghost var pending := Reversed(feed);
    entries, lookups := [], [];
    var n := |feed|;
    for i := 0 to n
      invariant Collect(pending[..i], store, readFails) == Scan(entries, lookups, None)
    {
      var entry := feed[n - 1 - i];
      assert entry == pending[i];
      assert pending[..i + 1][..i] == pending[..i];
      lookups := lookups + [LedgerRead(entry.url)];
      if entry.url in readFails {
        CollectStops(pending, store, readFails, i + 1);
        return entries, lookups, Some(entry.url);
      }
      if entry.url !in store {
        entries := entries + [entry];
      }
    }
    assert pending[..n] == pending;
    failed := None;
  }

  /**
   * The second loop of `run`: posts each entry in turn; after a successful
   * post it writes the receipt under the entry's URL, after a failed one it
   * goes on with the next entry; a failed write ends the loop.
   */
  method PostAll<A, R>(agent: A, entries: seq<Entry>, store: map<Bytes, R>,
                       post: (A, Entry) -> Option<R>, writeFails: set<Bytes>)
    returns (ledger: map<Bytes, R>, events: seq<Event>, failed: Option<Bytes>)
    ensures Publishing(ledger, events, failed) == Publish(agent, entries, store, post, writeFails)
  {
    ledger, events := store, [];
    for i := 0 to |entries|
      invariant Publish(agent, entries[..i], store, post, writeFails) == Publishing(ledger, events, None)
    {
      var entry := entries[i];
      assert entries[..i + 1][..i] == entries[..i];
      var output := post(agent, entry);
      match output {
        case None =>
          events := events + [Posted(entry.url, false)];
        case Some(receipt) =>
          events := events + [Posted(entry.url, true), LedgerWrite(entry.url)];
          if entry.url in writeFails {
            PublishStops(agent, entries, store, post, writeFails, i + 1);
            return ledger, events, Some(entry.url);
          }
          ledger := ledger[entry.url := receipt];
      }
    }
    assert entries[..|entries|] == entries;
    failed := None;
  }

  /**
   * `run`: collects the unseen entries, logs in only when there is at least
   * one, posts them in order and reports how many entries were new.
   */
  method Run<A, R>(config: Option<Config>, listBookmarks: Bytes -> Option<seq<Entry>>,
                   store: map<Bytes, R>, readFails: set<Bytes>, login: (Bytes, Bytes) -> Option<A>,
                   post: (A, Entry) -> Option<R>, writeFails: set<Bytes>)
    returns (result: Result<nat, RunError>, ledger: map<Bytes, R>, trace: seq<Event>)
    ensures Outcome(result, ledger, trace) == RunSpec(config, listBookmarks, store, readFails, login, post, writeFails)
  {
    if config.None? {
      return Failure(ConfigMissing), store, [];
    }
    var cfg := config.value;
    var listed := listBookmarks(cfg.hatenaId);
    if listed.None? {
      return Failure(FeedFailed), store, [];
    }
    var entries, lookups, readFailed := CollectNew(listed.value, store, readFails);
    if readFailed.Some? {
      return Failure(LedgerReadFailed(readFailed.value)), store, lookups;
    }
    if entries == [] {
      return Success(0), store, lookups;
    }
    var agent := login(cfg.identifier, cfg.password);
    if agent.None? {
      return Failure(LoginFailed), store, lookups + [Login];
    }
    var events, writeFailed;
    ledger, events, writeFailed := PostAll(agent.value, entries, store, post, writeFails);
    trace := lookups + [Login] + events;
    if writeFailed.Some? {
      return Failure(LedgerWriteFailed(writeFailed.value)), ledger, trace;
    }
    result := Success(|entries|);
  }

  // ---------------------------------------------------------------------
  // Properties of the two loops
  // ---------------------------------------------------------------------

  /** The URLs of the `Posted` events, in order. */
  function PostedKeys(events: seq<Event>): seq<Bytes>
  {
    if events == [] then []
    else
      var last := events[|events| - 1];
      PostedKeys(events[..|events| - 1]) + (if last.Posted? then [last.key] else [])
  }

  function Urls(entries: seq<Entry>): seq<Bytes>
  {
    seq(|entries|, i requires 0 <= i < |entries| => entries[i].url)
  }

  lemma PostedKeysAppend(events: seq<Event>, e: Event)
    ensures PostedKeys(events + [e]) == PostedKeys(events) + (if e.Posted? then [e.key] else [])
  {
    assert (events + [e])[..|events|] == events;
  }

  /**
   * The collection loop reads the ledger once per entry, in walk order, up
   * to and including the first read that fails, and reads nothing after it.
   */
  lemma CollectReads<R>(pending: seq<Entry>, store: map<Bytes, R>, readFails: set<Bytes>)
    ensures var scan := Collect(pending, store, readFails);
      && |scan.lookups| <= |pending|
      && (forall i | 0 <= i < |scan.lookups| :: scan.lookups[i] == LedgerRead(pending[i].url))
      && (forall j | 0 <= j < |scan.kept| :: scan.kept[j].url !in store)
      && (scan.failed.None? ==> |scan.lookups| == |pending|)
      && (scan.failed.None? ==> forall i | 0 <= i < |pending| :: pending[i].url !in readFails)
      && (scan.failed.Some? ==>
            && 0 < |scan.lookups|
            && scan.failed.value == pending[|scan.lookups| - 1].url
            && scan.failed.value in readFails
            && forall i | 0 <= i < |scan.lookups| - 1 :: pending[i].url !in readFails)
  {
    CollectLookups(pending, store, readFails);
    CollectKeptUnledgered(pending, store, readFails);
    CollectFailure(pending, store, readFails);
  }

  lemma {:induction false} CollectLookups<R>(pending: seq<Entry>, store: map<Bytes, R>, readFails: set<Bytes>)
    ensures var scan := Collect(pending, store, readFails);
      && |scan.lookups| <= |pending|
      && (forall i | 0 <= i < |scan.lookups| :: scan.lookups[i] == LedgerRead(pending[i].url))
      && (scan.failed.None? ==> |scan.lookups| == |pending|)
    decreases |pending|
  {
    if pending != [] {
      var init := pending[..|pending| - 1];
      CollectLookups(init, store, readFails);
      assert forall i | 0 <= i < |init| :: init[i] == pending[i];
    }
  }

  lemma {:induction false} CollectKeptUnledgered<R>(pending: seq<Entry>, store: map<Bytes, R>, readFails: set<Bytes>)
    ensures forall e | e in Collect(pending, store, readFails).kept :: e.url !in store
    decreases |pending|
  {
    if pending != [] {
      CollectKeptUnledgered(pending[..|pending| - 1], store, readFails);
    }
  }

  lemma {:induction false} CollectFailure<R>(pending: seq<Entry>, store: map<Bytes, R>, readFails: set<Bytes>)
    ensures var scan := Collect(pending, store, readFails);
      && |scan.lookups| <= |pending|
      && (scan.failed.None? ==> forall i | 0 <= i < |pending| :: pending[i].url !in readFails)
      && (scan.failed.Some? ==>
            && 0 < |scan.lookups|
            && scan.failed.value == pending[|scan.lookups| - 1].url
            && scan.failed.value in readFails
            && forall i | 0 <= i < |scan.lookups| - 1 :: pending[i].url !in readFails)
    decreases |pending|
  {
    CollectLookups(pending, store, readFails);
    if pending != [] {
      var init := pending[..|pending| - 1];
      CollectLookups(init, store, readFails);
      CollectFailure(init, store, readFails);
      assert forall i | 0 <= i < |init| :: init[i] == pending[i];
    }
  }

  /** `idx` lists, in increasing order, exactly the positions of `pending` whose URL has no ledger value, and `kept` is `pending` at those positions. */
  ghost predicate KeptPositions<R>(pending: seq<Entry>, store: map<Bytes, R>, kept: seq<Entry>, idx: seq<nat>)
  {
    && |idx| == |kept|
    && (forall k | 0 <= k < |idx| :: idx[k] < |pending| && kept[k] == pending[idx[k]])
    && (forall k, l | 0 <= k < l < |idx| :: idx[k] < idx[l])
    && (forall p | 0 <= p < |pending| :: pending[p].url !in store <==> p in idx)
  }

  lemma KeptPositionsSkip<R>(pending: seq<Entry>, store: map<Bytes, R>, kept: seq<Entry>, idx: seq<nat>)
    requires pending != [] && pending[|pending| - 1].url in store
    requires KeptPositions(pending[..|pending| - 1], store, kept, idx)
    ensures KeptPositions(pending, store, kept, idx)
  {
    var n := |pending|;
    assert forall p | 0 <= p < n - 1 :: pending[..n - 1][p] == pending[p];
    assert n - 1 !in idx;
  }

  lemma KeptPositionsKeep<R>(pending: seq<Entry>, store: map<Bytes, R>, kept: seq<Entry>, idx: seq<nat>)
    requires pending != [] && pending[|pending| - 1].url !in store
    requires KeptPositions(pending[..|pending| - 1], store, kept, idx)
    ensures KeptPositions(pending, store, kept + [pending[|pending| - 1]], idx + [|pending| - 1])
  {
    var n := |pending|;
    assert forall p | 0 <= p < n - 1 :: pending[..n - 1][p] == pending[p];
    var idx' := idx + [n - 1];
    assert forall p | 0 <= p < n - 1 :: p in idx' <==> p in idx;
  }

  /**
   * When every read succeeds, the kept entries are exactly the entries
   * without a ledger value, in the order of the walk.
   */
  lemma {:induction false} CollectKeepsUnseenInOrder<R>(pending: seq<Entry>, store: map<Bytes, R>, readFails: set<Bytes>)
    requires Collect(pending, store, readFails).failed.None?
    ensures exists idx :: KeptPositions(pending, store, Collect(pending, store, readFails).kept, idx)
    decreases |pending|
  {
    if pending == [] {
      assert KeptPositions(pending, store, [], []);
    } else {
      var n := |pending|;
      var init := pending[..n - 1];
      var scan := Collect(init, store, readFails);
      assert scan.failed.None? && pending[n - 1].url !in readFails;
      CollectKeepsUnseenInOrder(init, store, readFails);
      var idx: seq<nat> :| KeptPositions(init, store, scan.kept, idx);
      var e := pending[n - 1];
      if e.url in store {
        assert Collect(pending, store, readFails).kept == scan.kept;
        KeptPositionsSkip(pending, store, scan.kept, idx);
        assert KeptPositions(pending, store, Collect(pending, store, readFails).kept, idx);
      } else {
        assert Collect(pending, store, readFails).kept == scan.kept + [e];
        KeptPositionsKeep(pending, store, scan.kept, idx);
        assert KeptPositions(pending, store, Collect(pending, store, readFails).kept, idx + [n - 1]);
      }
    }
  }

  /**
   * The posting loop: every write comes right after a successful post of the
   * same URL, a failed write is the last thing the loop does, and a loop that
   * ends without one wrote every successfully posted URL without failure.
   */
  lemma {:induction false} PublishEvents<A, R>(agent: A, entries: seq<Entry>, store: map<Bytes, R>,
                                               post: (A, Entry) -> Option<R>, writeFails: set<Bytes>)
    ensures var p := Publish(agent, entries, store, post, writeFails);
      && (forall i | 0 <= i < |p.events| :: p.events[i].Posted? || p.events[i].LedgerWrite?)
      && (forall i | 0 <= i < |p.events| && p.events[i].LedgerWrite? ::
            0 < i && p.events[i - 1] == Posted(p.events[i].key, true))
      && (p.failed.Some? ==>
            0 < |p.events| && p.events[|p.events| - 1] == LedgerWrite(p.failed.value) && p.failed.value in writeFails)
      && (p.failed.None? ==>
            forall j | 0 <= j < |entries| && post(agent, entries[j]).Some? :: entries[j].url !in writeFails)
    decreases |entries|
  {
    if entries != [] {
      PublishEvents(agent, entries[..|entries| - 1], store, post, writeFails);
      PublishWritesAllSucceeded(agent, entries, store, post, writeFails);
    }
  }

  /** A posting loop that ends without a failed write met no failing write after a successful post. */
  lemma {:induction false} PublishWritesAllSucceeded<A, R>(agent: A, entries: seq<Entry>, store: map<Bytes, R>,
                                                          post: (A, Entry) -> Option<R>, writeFails: set<Bytes>)
    ensures Publish(agent, entries, store, post, writeFails).failed.None? ==>
      forall j | 0 <= j < |entries| && post(agent, entries[j]).Some? :: entries[j].url !in writeFails
    decreases |entries|
  {
    if entries != [] {
      var init := entries[..|entries| - 1];
      PublishWritesAllSucceeded(agent, init, store, post, writeFails);
      assert forall j | 0 <= j < |init| :: init[j] == entries[j];
    }
  }

  /** Without a failed write, every entry is posted once, in order, and each outcome is recorded. */
  lemma PublishPostsEach<A, R>(agent: A, entries: seq<Entry>, store: map<Bytes, R>,
                               post: (A, Entry) -> Option<R>, writeFails: set<Bytes>)
    ensures var p := Publish(agent, entries, store, post, writeFails);
      p.failed.None? ==>
        && PostedKeys(p.events) == Urls(entries)
        && forall j | 0 <= j < |entries| :: Posted(entries[j].url, post(agent, entries[j]).Some?) in p.events
  {
    PublishPostedKeys(agent, entries, store, post, writeFails);
    PublishRecordsOutcomes(agent, entries, store, post, writeFails);
  }

  lemma {:induction false} PublishPostedKeys<A, R>(agent: A, entries: seq<Entry>, store: map<Bytes, R>,
                                                   post: (A, Entry) -> Option<R>, writeFails: set<Bytes>)
    ensures var p := Publish(agent, entries, store, post, writeFails);
      p.failed.None? ==> PostedKeys(p.events) == Urls(entries)
    decreases |entries|
  {
    if entries != [] {
      var n := |entries|;
      var init := entries[..n - 1];
      var e := entries[n - 1];
      var p0 := Publish(agent, init, store, post, writeFails);
      PublishPostedKeys(agent, init, store, post, writeFails);
      if p0.failed.None? {
        assert Urls(entries) == Urls(init) + [e.url];
        if post(agent, e).None? {
          PostedKeysAppend(p0.events, Posted(e.url, false));
        } else {
          PostedKeysAppend(p0.events, Posted(e.url, true));
          PostedKeysAppend(p0.events + [Posted(e.url, true)], LedgerWrite(e.url));
          assert p0.events + [Posted(e.url, true), LedgerWrite(e.url)]
              == p0.events + [Posted(e.url, true)] + [LedgerWrite(e.url)];
        }
      }
    }
  }

  lemma {:induction false} PublishRecordsOutcomes<A, R>(agent: A, entries: seq<Entry>, store: map<Bytes, R>,
                                                        post: (A, Entry) -> Option<R>, writeFails: set<Bytes>)
    ensures var p := Publish(agent, entries, store, post, writeFails);
      p.failed.None? ==>
        forall j | 0 <= j < |entries| :: Posted(entries[j].url, post(agent, entries[j]).Some?) in p.events
    decreases |entries|
  {
    if entries != [] {
      var n := |entries|;
      var init := entries[..n - 1];
      var p0 := Publish(agent, init, store, post, writeFails);
      PublishRecordsOutcomes(agent, init, store, post, writeFails);
      var p := Publish(agent, entries, store, post, writeFails);
      if p.failed.None? {
        assert p0.failed.None? && p0.events <= p.events;
        forall j | 0 <= j < n
          ensures Posted(entries[j].url, post(agent, entries[j]).Some?) in p.events
        {
          if j < n - 1 {
            assert init[j] == entries[j];
          } else {
            assert Posted(entries[j].url, post(agent, entries[j]).Some?) == p.events[|p0.events|];
          }
        }
      }
    }
  }

  /**
   * The ledger after the posting loop: the keys no entry touches keep their
   * value; every new value is the receipt of a successful post of an entry
   * with that URL; without a failed write, every successful post is recorded.
   */
  lemma PublishLedger<A, R>(agent: A, entries: seq<Entry>, store: map<Bytes, R>,
                            post: (A, Entry) -> Option<R>, writeFails: set<Bytes>)
    ensures var p := Publish(agent, entries, store, post, writeFails);
      && store.Keys <= p.ledger.Keys
      && (forall k | k in store && k !in Urls(entries) :: p.ledger[k] == store[k])
      && (forall k | k in p.ledger && k !in store ::
            exists j | 0 <= j < |entries| :: entries[j].url == k && post(agent, entries[j]) == Some(p.ledger[k]))
      && (p.failed.None? ==>
            forall j | 0 <= j < |entries| && post(agent, entries[j]).Some? :: entries[j].url in p.ledger)
  {
    PublishKeepsUntouched(agent, entries, store, post, writeFails);
    PublishNewKeys(agent, entries, store, post, writeFails);
    PublishRecordsSuccesses(agent, entries, store, post, writeFails);
  }

  lemma {:induction false} PublishKeepsUntouched<A, R>(agent: A, entries: seq<Entry>, store: map<Bytes, R>,
                                                       post: (A, Entry) -> Option<R>, writeFails: set<Bytes>)
    ensures var p := Publish(agent, entries, store, post, writeFails);
      && store.Keys <= p.ledger.Keys
      && (forall k | k in store && k !in Urls(entries) :: p.ledger[k] == store[k])
    decreases |entries|
  {
    if entries != [] {
      var n := |entries|;
      var init := entries[..n - 1];
      PublishKeepsUntouched(agent, init, store, post, writeFails);
      assert Urls(entries) == Urls(init) + [entries[n - 1].url];
    }
  }

  lemma {:induction false} PublishNewKeys<A, R>(agent: A, entries: seq<Entry>, store: map<Bytes, R>,
                                                post: (A, Entry) -> Option<R>, writeFails: set<Bytes>)
    ensures var p := Publish(agent, entries, store, post, writeFails);
      forall k | k in p.ledger && k !in store ::
        exists j | 0 <= j < |entries| :: entries[j].url == k && post(agent, entries[j]) == Some(p.ledger[k])
    decreases |entries|
  {
    if entries != [] {
      var n := |entries|;
      var init := entries[..n - 1];
      PublishNewKeys(agent, init, store, post, writeFails);
      assert forall j | 0 <= j < n - 1 :: init[j] == entries[j];
    }
  }

  lemma {:induction false} PublishRecordsSuccesses<A, R>(agent: A, entries: seq<Entry>, store: map<Bytes, R>,
                                                         post: (A, Entry) -> Option<R>, writeFails: set<Bytes>)
    ensures var p := Publish(agent, entries, store, post, writeFails);
      p.failed.None? ==>
        forall j | 0 <= j < |entries| && post(agent, entries[j]).Some? :: entries[j].url in p.ledger
    decreases |entries|
  {
    if entries != [] {
      var n := |entries|;
      var init := entries[..n - 1];
      PublishRecordsSuccesses(agent, init, store, post, writeFails);
      assert forall j | 0 <= j < n - 1 :: init[j] == entries[j];
    }
  }

  lemma {:induction false} PostedKeysConcat(a: seq<Event>, b: seq<Event>)
    ensures PostedKeys(a + b) == PostedKeys(a) + PostedKeys(b)
    decreases |b|
  {
    if b == [] {
      assert a + b == a;
    } else {
      var init, last := b[..|b| - 1], b[|b| - 1];
      var ab := a + b;
      assert ab[..|ab| - 1] == a + init;
      assert ab[|ab| - 1] == last;
      PostedKeysConcat(a, init);
    }
  }

  lemma {:induction false} NoPostsAmongReads(lookups: seq<Event>)
    requires forall i | 0 <= i < |lookups| :: lookups[i].LedgerRead?
    ensures PostedKeys(lookups) == []
    decreases |lookups|
  {
    if lookups != [] {
      NoPostsAmongReads(lookups[..|lookups| - 1]);
    }
  }

  /** When every URL of the walk already has a ledger value, nothing is kept. */
  lemma {:induction false} CollectNothingNew<R>(pending: seq<Entry>, store: map<Bytes, R>, readFails: set<Bytes>)
    requires forall i | 0 <= i < |pending| :: pending[i].url in store && pending[i].url !in readFails
    ensures Collect(pending, store, readFails).failed.None? && Collect(pending, store, readFails).kept == []
    decreases |pending|
  {
    if pending != [] {
      var init := pending[..|pending| - 1];
      assert forall i | 0 <= i < |init| :: init[i] == pending[i];
      CollectNothingNew(init, store, readFails);
    }
  }

  /** When every URL of the walk has a ledger value, nothing is kept, whichever reads fail. */
  lemma {:induction false} CollectAllLedgered<R>(pending: seq<Entry>, store: map<Bytes, R>, readFails: set<Bytes>)
    requires forall i | 0 <= i < |pending| :: pending[i].url in store
    ensures Collect(pending, store, readFails).kept == []
    decreases |pending|
  {
    if pending != [] {
      var init := pending[..|pending| - 1];
      assert forall i | 0 <= i < |init| :: init[i] == pending[i];
      CollectAllLedgered(init, store, readFails);
    }
  }

  // ---------------------------------------------------------------------
  // Properties of a whole run
  // ---------------------------------------------------------------------

  /** The entries a run posts: those of the walk without a ledger value, if settings, feed and reads succeed. */
  function NewEntries<R>(config: Option<Config>, listBookmarks: Bytes -> Option<seq<Entry>>,
                         store: map<Bytes, R>, readFails: set<Bytes>): Option<seq<Entry>>
  {
    match config
    case None => None
    case Some(cfg) =>
      match listBookmarks(cfg.hatenaId)
      case None => None
      case Some(feed) =>
        var scan := Collect(Reversed(feed), store, readFails);
        if scan.failed.Some? then None else Some(scan.kept)
  }

  /** Every ledger read of a run comes before its login, its posts and its writes. */
  lemma RunReadsFirst<A, R>(config: Option<Config>, listBookmarks: Bytes -> Option<seq<Entry>>,
                            store: map<Bytes, R>, readFails: set<Bytes>, login: (Bytes, Bytes) -> Option<A>,
                            post: (A, Entry) -> Option<R>, writeFails: set<Bytes>)
    ensures var trace := RunSpec(config, listBookmarks, store, readFails, login, post, writeFails).trace;
      forall i, j | 0 <= i < j < |trace| && trace[j].LedgerRead? :: trace[i].LedgerRead?
  {
    if config.Some? && listBookmarks(config.value.hatenaId).Some? {
      var cfg := config.value;
      var pending := Reversed(listBookmarks(cfg.hatenaId).value);
      CollectReads(pending, store, readFails);
      var scan := Collect(pending, store, readFails);
      if scan.failed.None? && scan.kept != [] && login(cfg.identifier, cfg.password).Some? {
        var agent := login(cfg.identifier, cfg.password).value;
        PublishEvents(agent, scan.kept, store, post, writeFails);
      }
    }
  }

  /** The ledger is read for the feed's entries from the last (oldest) one towards the first. */
  lemma RunWalksOldestFirst<A, R>(config: Option<Config>, listBookmarks: Bytes -> Option<seq<Entry>>,
                                  store: map<Bytes, R>, readFails: set<Bytes>, login: (Bytes, Bytes) -> Option<A>,
                                  post: (A, Entry) -> Option<R>, writeFails: set<Bytes>)
    requires config.Some? && listBookmarks(config.value.hatenaId).Some?
    ensures var feed := listBookmarks(config.value.hatenaId).value;
      var trace := RunSpec(config, listBookmarks, store, readFails, login, post, writeFails).trace;
      forall i | 0 <= i < |trace| && trace[i].LedgerRead? :: i < |feed| && trace[i] == LedgerRead(feed[|feed| - 1 - i].url)
  {
    var cfg := config.value;
    var pending := Reversed(listBookmarks(cfg.hatenaId).value);
    CollectReads(pending, store, readFails);
    var scan := Collect(pending, store, readFails);
    if scan.failed.None? && scan.kept != [] && login(cfg.identifier, cfg.password).Some? {
      var agent := login(cfg.identifier, cfg.password).value;
      PublishEvents(agent, scan.kept, store, post, writeFails);
    }
  }

  /**
   * A run logs in exactly when settings, feed and reads succeed and some
   * entry is new; with nothing new it reports 0 and leaves the ledger alone.
   */
  lemma RunLogsInOnlyForNewEntries<A, R>(config: Option<Config>, listBookmarks: Bytes -> Option<seq<Entry>>,
                                         store: map<Bytes, R>, readFails: set<Bytes>, login: (Bytes, Bytes) -> Option<A>,
                                         post: (A, Entry) -> Option<R>, writeFails: set<Bytes>)
    ensures var o := RunSpec(config, listBookmarks, store, readFails, login, post, writeFails);
      var newOnes := NewEntries(config, listBookmarks, store, readFails);
      && (Login in o.trace <==> newOnes.Some? && newOnes.value != [])
      && (newOnes == Some([]) ==> o.result == Success(0) && o.ledger == store)
  {
    if config.Some? && listBookmarks(config.value.hatenaId).Some? {
      var cfg := config.value;
      var pending := Reversed(listBookmarks(cfg.hatenaId).value);
      CollectReads(pending, store, readFails);
      var scan := Collect(pending, store, readFails);
      assert Login !in scan.lookups;
      if scan.failed.None? && scan.kept != [] && login(cfg.identifier, cfg.password).Some? {
        var agent := login(cfg.identifier, cfg.password).value;
        var events := Publish(agent, scan.kept, store, post, writeFails).events;
        assert (scan.lookups + [Login] + events)[|scan.lookups|] == Login;
      }
    }
  }

  /** Every ledger write in `trace` comes right after the successful post of its URL. */
  predicate WritesFollowPosts(trace: seq<Event>)
  {
    forall i | 0 <= i < |trace| && trace[i].LedgerWrite? :: 0 < i && trace[i - 1] == Posted(trace[i].key, true)
  }

  lemma WritesFollowPostsAfterPrefix(prefix: seq<Event>, events: seq<Event>)
    requires forall i | 0 <= i < |prefix| :: !prefix[i].LedgerWrite?
    requires WritesFollowPosts(events)
    ensures WritesFollowPosts(prefix + events)
  {
    var trace := prefix + events;
    forall i | 0 <= i < |trace| && trace[i].LedgerWrite?
      ensures 0 < i && trace[i - 1] == Posted(trace[i].key, true)
    {
      assert i >= |prefix| && trace[i] == events[i - |prefix|];
      assert trace[i - 1] == events[i - |prefix| - 1];
    }
  }

  /** A ledger write comes right after the successful post of the same URL; a failed post is never written. */
  lemma RunWritesOnlyAfterSuccessfulPost<A, R>(config: Option<Config>, listBookmarks: Bytes -> Option<seq<Entry>>,
                                               store: map<Bytes, R>, readFails: set<Bytes>,
                                               login: (Bytes, Bytes) -> Option<A>,
                                               post: (A, Entry) -> Option<R>, writeFails: set<Bytes>)
    ensures WritesFollowPosts(RunSpec(config, listBookmarks, store, readFails, login, post, writeFails).trace)
  {
    if config.Some? && listBookmarks(config.value.hatenaId).Some? {
      var cfg := config.value;
      var pending := Reversed(listBookmarks(cfg.hatenaId).value);
      CollectReads(pending, store, readFails);
      var scan := Collect(pending, store, readFails);
      if scan.failed.None? && scan.kept != [] && login(cfg.identifier, cfg.password).Some? {
        var agent := login(cfg.identifier, cfg.password).value;
        PublishEvents(agent, scan.kept, store, post, writeFails);
        var events := Publish(agent, scan.kept, store, post, writeFails).events;
        WritesFollowPostsAfterPrefix(scan.lookups + [Login], events);
      }
    }
  }

  /**
   * The ledger after a run: existing values are untouched; each new key is
   * the URL of a new entry whose post succeeded and holds that post's
   * receipt; after a successful run every successful post is recorded.
   */
  lemma RunLedger<A, R>(config: Option<Config>, listBookmarks: Bytes -> Option<seq<Entry>>,
                        store: map<Bytes, R>, readFails: set<Bytes>, login: (Bytes, Bytes) -> Option<A>,
                        post: (A, Entry) -> Option<R>, writeFails: set<Bytes>)
    ensures var o := RunSpec(config, listBookmarks, store, readFails, login, post, writeFails);
      var newOnes := NewEntries(config, listBookmarks, store, readFails);
      && (forall k | k in store :: k in o.ledger && o.ledger[k] == store[k])
      && (forall k | k in o.ledger && k !in store ::
            && newOnes.Some? && login(config.value.identifier, config.value.password).Some?
            && exists j | 0 <= j < |newOnes.value| ::
                 newOnes.value[j].url == k &&
                 post(login(config.value.identifier, config.value.password).value, newOnes.value[j]) == Some(o.ledger[k]))
      && (o.result.Success? && newOnes.Some? && newOnes.value != [] ==>
            forall j | 0 <= j < |newOnes.value| &&
                       post(login(config.value.identifier, config.value.password).value, newOnes.value[j]).Some? ::
              newOnes.value[j].url in o.ledger)
  {
    if config.Some? && listBookmarks(config.value.hatenaId).Some? {
      var cfg := config.value;
      var pending := Reversed(listBookmarks(cfg.hatenaId).value);
      CollectReads(pending, store, readFails);
      var scan := Collect(pending, store, readFails);
      if scan.failed.None? && scan.kept != [] && login(cfg.identifier, cfg.password).Some? {
        var agent := login(cfg.identifier, cfg.password).value;
        PublishLedger(agent, scan.kept, store, post, writeFails);
        assert forall k | k in store :: k !in Urls(scan.kept);
        var o := RunSpec(config, listBookmarks, store, readFails, login, post, writeFails);
        var pub := Publish(agent, scan.kept, store, post, writeFails);
        assert o.ledger == pub.ledger;
        assert NewEntries(config, listBookmarks, store, readFails) == Some(scan.kept);
        assert (forall k | k in store :: k in o.ledger && o.ledger[k] == store[k]);
        assert (forall k | k in o.ledger && k !in store ::
            exists j | 0 <= j < |scan.kept| ::
                 scan.kept[j].url == k &&
                 post(agent, scan.kept[j]) == Some(o.ledger[k]));
      }
    }
  }

  /**
   * A successful run posts the new entries in walk order, one post each,
   * and reports how many there were, whether or not each post succeeded.
   */
  lemma RunCountsNewEntries<A, R>(config: Option<Config>, listBookmarks: Bytes -> Option<seq<Entry>>,
                                  store: map<Bytes, R>, readFails: set<Bytes>, login: (Bytes, Bytes) -> Option<A>,
                                  post: (A, Entry) -> Option<R>, writeFails: set<Bytes>)
    ensures var o := RunSpec(config, listBookmarks, store, readFails, login, post, writeFails);
      var newOnes := NewEntries(config, listBookmarks, store, readFails);
      o.result.Success? ==>
        && newOnes.Some?
        && PostedKeys(o.trace) == Urls(newOnes.value)
        && o.result.value == |newOnes.value|
  {
    if config.Some? && listBookmarks(config.value.hatenaId).Some? {
      var cfg := config.value;
      var pending := Reversed(listBookmarks(cfg.hatenaId).value);
      CollectReads(pending, store, readFails);
      var scan := Collect(pending, store, readFails);
      NoPostsAmongReads(scan.lookups);
      if scan.failed.None? && scan.kept != [] && login(cfg.identifier, cfg.password).Some? {
        var agent := login(cfg.identifier, cfg.password).value;
        PublishPostsEach(agent, scan.kept, store, post, writeFails);
        var events := Publish(agent, scan.kept, store, post, writeFails).events;
        assert RunSpec(config, listBookmarks, store, readFails, login, post, writeFails).trace
          == scan.lookups + [Login] + events;
        PostedKeysConcat(scan.lookups + [Login], events);
        PostedKeysAppend(scan.lookups, Login);
      }
    }
  }

  /**
   * How a run ends early: a failed read leaves the ledger untouched, is the
   * last step and comes before any login; a failed login is the last step
   * and nothing is written; a failed write is the last step of the run.
   */
  lemma RunFailures<A, R>(config: Option<Config>, listBookmarks: Bytes -> Option<seq<Entry>>,
                          store: map<Bytes, R>, readFails: set<Bytes>, login: (Bytes, Bytes) -> Option<A>,
                          post: (A, Entry) -> Option<R>, writeFails: set<Bytes>)
    ensures var o := RunSpec(config, listBookmarks, store, readFails, login, post, writeFails);
      && (o.result.Failure? && o.result.error.LedgerReadFailed? ==>
            && o.result.error.key in readFails && o.ledger == store && Login !in o.trace
            && 0 < |o.trace| && o.trace[|o.trace| - 1] == LedgerRead(o.result.error.key))
      && (o.result == Failure(LoginFailed) ==>
            o.ledger == store && 0 < |o.trace| && o.trace[|o.trace| - 1] == Login)
      && (o.result.Failure? && o.result.error.LedgerWriteFailed? ==>
            && o.result.error.key in writeFails
            && 0 < |o.trace| && o.trace[|o.trace| - 1] == LedgerWrite(o.result.error.key))
  {
    if config.Some? && listBookmarks(config.value.hatenaId).Some? {
      var cfg := config.value;
      var pending := Reversed(listBookmarks(cfg.hatenaId).value);
      CollectReads(pending, store, readFails);
      var scan := Collect(pending, store, readFails);
      assert Login !in scan.lookups;
      if scan.failed.None? && scan.kept != [] && login(cfg.identifier, cfg.password).Some? {
        var agent := login(cfg.identifier, cfg.password).value;
        PublishEvents(agent, scan.kept, store, post, writeFails);
      }
    }
  }

  /**
   * A failing ledger write aborts the run: a run with new entries that
   * succeeds met no failing write after a successful post, and one in which
   * some new entry's post succeeded and its write fails reports a failed write.
   */
  lemma RunStopsAtFailedWrite<A, R>(config: Option<Config>, listBookmarks: Bytes -> Option<seq<Entry>>,
                                    store: map<Bytes, R>, readFails: set<Bytes>, login: (Bytes, Bytes) -> Option<A>,
                                    post: (A, Entry) -> Option<R>, writeFails: set<Bytes>)
    ensures var o := RunSpec(config, listBookmarks, store, readFails, login, post, writeFails);
      var newOnes := NewEntries(config, listBookmarks, store, readFails);
      && (o.result.Success? && newOnes.Some? && newOnes.value != [] ==>
            forall j | 0 <= j < |newOnes.value| && post(login(config.value.identifier, config.value.password).value, newOnes.value[j]).Some? ::
              newOnes.value[j].url !in writeFails)
      && (newOnes.Some? && newOnes.value != [] && login(config.value.identifier, config.value.password).Some? &&
          (exists j | 0 <= j < |newOnes.value| ::
             post(login(config.value.identifier, config.value.password).value, newOnes.value[j]).Some? &&
             newOnes.value[j].url in writeFails) ==>
            o.result.Failure? && o.result.error.LedgerWriteFailed?)
  {
    if config.Some? && listBookmarks(config.value.hatenaId).Some? {
      var cfg := config.value;
      var scan := Collect(Reversed(listBookmarks(cfg.hatenaId).value), store, readFails);
      if scan.failed.None? && scan.kept != [] && login(cfg.identifier, cfg.password).Some? {
        var agent := login(cfg.identifier, cfg.password).value;
        PublishWritesAllSucceeded(agent, scan.kept, store, post, writeFails);
      }
    }
  }

  /** Every URL of the walk has a value in `ledger`, and none is among the failing reads. */
  predicate CoversWalk<R>(pending: seq<Entry>, ledger: map<Bytes, R>, readFails: set<Bytes>)
  {
    forall p | 0 <= p < |pending| :: pending[p].url in ledger && pending[p].url !in readFails
  }

  /**
   * After a successful run in which every post succeeded, every URL of the
   * walk has a ledger value and none of its reads failed.
   */
  lemma SuccessfulRunCoversFeed<A, R>(config: Option<Config>, listBookmarks: Bytes -> Option<seq<Entry>>,
                                      store: map<Bytes, R>, readFails: set<Bytes>,
                                      login: (Bytes, Bytes) -> Option<A>, post: (A, Entry) -> Option<R>,
                                      writeFails: set<Bytes>)
    requires var first := RunSpec(config, listBookmarks, store, readFails, login, post, writeFails);
      && first.result.Success?
      && forall i | 0 <= i < |first.trace| && first.trace[i].Posted? :: first.trace[i].succeeded
    ensures config.Some? && listBookmarks(config.value.hatenaId).Some?
    ensures CoversWalk(Reversed(listBookmarks(config.value.hatenaId).value),
                       RunSpec(config, listBookmarks, store, readFails, login, post, writeFails).ledger, readFails)
  {
    var first := RunSpec(config, listBookmarks, store, readFails, login, post, writeFails);
    var cfg := config.value;
    var pending := Reversed(listBookmarks(cfg.hatenaId).value);
    CollectReads(pending, store, readFails);
    var scan := Collect(pending, store, readFails);
    if scan.kept == [] {
      assert first.ledger == store;
      assert forall p | 0 <= p < |pending| :: pending[p].url in store by {
        CollectKeepsUnseen(pending, store, readFails);
      }
    } else {
      var agent := login(cfg.identifier, cfg.password).value;
      var pub := Publish(agent, scan.kept, store, post, writeFails);
      PublishPostsEach(agent, scan.kept, store, post, writeFails);
      assert first.trace == scan.lookups + [Login] + pub.events;
      forall j | 0 <= j < |scan.kept|
        ensures post(agent, scan.kept[j]).Some?
      {
        assert Posted(scan.kept[j].url, post(agent, scan.kept[j]).Some?) in first.trace;
      }
      PublishedCoverWalk(pending, store, readFails, agent, post, writeFails);
    }
  }

  /**
   * Idempotence: run again on the same feed with the ledger the first run
   * left, every post of the first run having succeeded. Whatever the second
   * run's reads do, nothing is posted, nothing is written and there is no
   * login; with the same failing reads as the first run it returns 0.
   */
  lemma SecondRunPublishesNothing<A, R>(config: Option<Config>, listBookmarks: Bytes -> Option<seq<Entry>>,
                                        store: map<Bytes, R>, readFails: set<Bytes>,
                                        login: (Bytes, Bytes) -> Option<A>, post: (A, Entry) -> Option<R>,
                                        writeFails: set<Bytes>, readFails': set<Bytes>,
                                        login': (Bytes, Bytes) -> Option<A>,
                                        post': (A, Entry) -> Option<R>, writeFails': set<Bytes>)
    requires var first := RunSpec(config, listBookmarks, store, readFails, login, post, writeFails);
      && first.result.Success?
      && forall i | 0 <= i < |first.trace| && first.trace[i].Posted? :: first.trace[i].succeeded
    ensures var first := RunSpec(config, listBookmarks, store, readFails, login, post, writeFails);
      var second := RunSpec(config, listBookmarks, first.ledger, readFails', login', post', writeFails');
      && second.ledger == first.ledger
      && Login !in second.trace
      && (forall i | 0 <= i < |second.trace| :: second.trace[i].LedgerRead?)
      && (second.result == Success(0) || (second.result.Failure? && second.result.error.LedgerReadFailed?))
      && (readFails' == readFails ==> second.result == Success(0))
  {
    var first := RunSpec(config, listBookmarks, store, readFails, login, post, writeFails);
    SuccessfulRunCoversFeed(config, listBookmarks, store, readFails, login, post, writeFails);
    var pending := Reversed(listBookmarks(config.value.hatenaId).value);
    CollectAllLedgered(pending, first.ledger, readFails');
    CollectReads(pending, first.ledger, readFails');
    assert Login !in Collect(pending, first.ledger, readFails').lookups;
    if readFails' == readFails {
      CollectNothingNew(pending, first.ledger, readFails);
    }
  }

  /** An entry of the walk that is not kept already has a ledger value. */
  lemma CollectKeepsUnseen<R>(pending: seq<Entry>, store: map<Bytes, R>, readFails: set<Bytes>)
    requires Collect(pending, store, readFails).failed.None?
    ensures var kept := Collect(pending, store, readFails).kept;
      forall p | 0 <= p < |pending| && pending[p].url !in store :: exists k | 0 <= k < |kept| :: kept[k] == pending[p]
  {
    var kept := Collect(pending, store, readFails).kept;
    CollectKeepsUnseenInOrder(pending, store, readFails);
    var idx: seq<nat> :| KeptPositions(pending, store, kept, idx);
    forall p | 0 <= p < |pending| && pending[p].url !in store
      ensures exists k | 0 <= k < |kept| :: kept[k] == pending[p]
    {
      var k :| 0 <= k < |idx| && idx[k] == p;
      assert kept[k] == pending[p];
    }
  }

  /** After a run whose every post succeeded, every URL of the walk has a ledger value. */
  lemma PublishedCoverWalk<A, R>(pending: seq<Entry>, store: map<Bytes, R>, readFails: set<Bytes>,
                                 agent: A, post: (A, Entry) -> Option<R>, writeFails: set<Bytes>)
    requires Collect(pending, store, readFails).failed.None?
    requires var kept := Collect(pending, store, readFails).kept;
      && Publish(agent, kept, store, post, writeFails).failed.None?
      && forall j | 0 <= j < |kept| :: post(agent, kept[j]).Some?
    ensures var ledger := Publish(agent, Collect(pending, store, readFails).kept, store, post, writeFails).ledger;
      forall p | 0 <= p < |pending| :: pending[p].url in ledger
  {
    var kept := Collect(pending, store, readFails).kept;
    CollectKeepsUnseen(pending, store, readFails);
    PublishLedger(agent, kept, store, post, writeFails);
  }
}
