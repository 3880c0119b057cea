/**
 * The harvest orchestrator (`getAllConversations`): collects and deduplicates the
 * conversation ids, then fetches and normalises each conversation in order, logging a
 * progress line before every 20th one and a final line at `lastOffset`.
 *
 * The per-id endpoint is the parameter `conversations`: `conversations(id, a)` answers
 * attempt `a` of the request for `id`, `None` when it fails. A progress line is recorded
 * by its offset; `None` is an offset printed as `undefined`.
 */
module Harvest {
  import opened Wrappers
  import Collector
  import Retry
  import Messages

  /** A progress line is logged before items 0, 20, 40, ... */
  const ProgressInterval: int := 20

  datatype HarvestError = PageRequestFailed | FetchFailed(exhausted: Retry.Exhausted)

  /** The three STARTING lines: total offsets (`lastOffset`), requested messages, total messages. */
  datatype Starting = Starting(lastOffset: Option<int>, requested: int, total: int)

  /** What a run returns or throws, with the log lines it printed on the way. */
  datatype Harvested = Harvested(outcome: Result<seq<Messages.Conversation>, HarvestError>,
                                 starting: Option<Starting>, progress: seq<Option<int>>)

  /** `fetchConversation(token, id)` with the default three attempts. */
  function FetchById<J>(conversations: (string, nat) -> Option<Messages.RawConversation<J>>, id: string)
    : Retry.Fetched<Messages.RawConversation<J>>
  {
    Retry.FetchConversation(a => conversations(id, a), Retry.DefaultMaxAttempts, 1)
  }

  /** The offsets logged before the items: those of items 0, 20, 40, ... */
  function Milestones<T>(items: seq<Collector.Item<T>>): (offsets: seq<Option<int>>)
    ensures |offsets| == (|items| + ProgressInterval - 1) / ProgressInterval
  {
    seq((|items| + ProgressInterval - 1) / ProgressInterval,
        k requires 0 <= k < (|items| + ProgressInterval - 1) / ProgressInterval =>
          Some(items[ProgressInterval * k].offset))
  }

  /** Before item `i` a progress line is logged exactly when `i % 20 == 0`, with that item's offset. */
  lemma MilestonesStep<T>(items: seq<Collector.Item<T>>, i: nat)
    requires i < |items|
    ensures Milestones(items[..i + 1]) ==
            Milestones(items[..i]) + (if i % ProgressInterval == 0 then [Some(items[i].offset)] else [])
  {
    var before, after := Milestones(items[..i]), Milestones(items[..i + 1]);
    if i % ProgressInterval == 0 {
      assert |after| == |before| + 1;
      assert ProgressInterval * |before| == i;
    } else {
      assert |after| == |before|;
    }
    forall k | 0 <= k < |before| ensures after[k] == before[k] {
      assert items[..i + 1][ProgressInterval * k] == items[..i][ProgressInterval * k];
    }
  }

  /** The first `i` items were fetched, and `done` holds their normalised conversations in order. */
  ghost predicate FetchedPrefix<T, J>(unique: seq<Collector.Item<T>>,
                                      conversations: (string, nat) -> Option<Messages.RawConversation<J>>,
                                      serialize: J -> string, done: seq<Messages.Conversation>, i: nat)
  {
    && i <= |unique| && |done| == i
    && (forall k :: 0 <= k < i ==> FetchById(conversations, unique[k].id).outcome.Success?)
    && (forall k :: 0 <= k < i ==>
          done[k] == Messages.Parsed(FetchById(conversations, unique[k].id).outcome.value, serialize))
  }

  lemma FetchedPrefixStep<T, J>(unique: seq<Collector.Item<T>>,
                                conversations: (string, nat) -> Option<Messages.RawConversation<J>>,
                                serialize: J -> string, done: seq<Messages.Conversation>, i: nat)
    requires FetchedPrefix(unique, conversations, serialize, done, i) && i < |unique|
    requires FetchById(conversations, unique[i].id).outcome.Success?
    ensures FetchedPrefix(unique, conversations, serialize,
                          done + [Messages.Parsed(FetchById(conversations, unique[i].id).outcome.value, serialize)], i + 1)
  {
  }

  /** The per-item loop of `getAllConversations`: sequential, in dedup order, aborting on the first exhausted fetch. */
  method FetchAll<T, J>(unique: seq<Collector.Item<T>>,
                        conversations: (string, nat) -> Option<Messages.RawConversation<J>>,
                        serialize: J -> string, lastOffset: Option<int>)
    returns (outcome: Result<seq<Messages.Conversation>, Retry.Exhausted>, progress: seq<Option<int>>)
    ensures outcome.Success? <==>
              forall k :: 0 <= k < |unique| ==> FetchById(conversations, unique[k].id).outcome.Success?
    ensures outcome.Success? ==>
              && |outcome.value| == |unique|
              && (forall k :: 0 <= k < |unique| ==>
                    outcome.value[k] == Messages.Parsed(FetchById(conversations, unique[k].id).outcome.value, serialize))
              && progress == Milestones(unique) + [lastOffset]
    ensures outcome.Failure? ==>
              && outcome.error == Retry.Exhausted(Retry.DefaultMaxAttempts)
              && exists n :: 0 <= n < |unique| && FetchById(conversations, unique[n].id).outcome.Failure?
                             && (forall k :: 0 <= k < n ==> FetchById(conversations, unique[k].id).outcome.Success?)
                             && progress == Milestones(unique[..n + 1])
  {
    var done: seq<Messages.Conversation> := [];
    progress := [];
    var i := 0;
    while i < |unique|
      invariant 0 <= i <= |unique|
      invariant FetchedPrefix(unique, conversations, serialize, done, i)
      invariant progress == Milestones(unique[..i])
    {
      var item := unique[i];
      MilestonesStep(unique, i);
      if |done| % ProgressInterval == 0 {
        progress := progress + [Some(item.offset)];
      }
      var fetched := FetchById(conversations, item.id);
      if fetched.outcome.Failure? {
        outcome := Failure(fetched.outcome.error);
        return;
      }
      var conversation := Messages.ParseConversation(fetched.outcome.value, serialize);
      FetchedPrefixStep(unique, conversations, serialize, done, i);
      done := done + [conversation];
      i := i + 1;
    }
    assert unique[..|unique|] == unique;
    progress := progress + [lastOffset];
    outcome := Success(done);
  }

  /** Fetching every deduplicated item succeeds exactly when fetching every collected id does. */
  lemma AllIdsFetched<T, J>(unique: seq<Collector.Item<T>>, items: seq<Collector.Item<T>>,
                            conversations: (string, nat) -> Option<Messages.RawConversation<J>>)
    requires Collector.IdSet(unique) == Collector.IdSet(items)
    ensures (forall k :: 0 <= k < |unique| ==> FetchById(conversations, unique[k].id).outcome.Success?) <==>
            (forall id :: id in Collector.IdSet(items) ==> FetchById(conversations, id).outcome.Success?)
  {
    if forall k :: 0 <= k < |unique| ==> FetchById(conversations, unique[k].id).outcome.Success? {
      forall id | id in Collector.IdSet(items) ensures FetchById(conversations, id).outcome.Success? {
        assert id in Collector.IdSet(unique);
        var k :| 0 <= k < |unique| && unique[k].id == id;
      }
    }
  }

  /**
   * `getAllConversations(startOffset, stopOffset)` without the token lookup: the page
   * phase, dedup, the STARTING lines, then the per-item loop.
   */
  method GetAllConversations<T, J>(pages: int -> Option<Collector.Page<T>>,
                                   conversations: (string, nat) -> Option<Messages.RawConversation<J>>,
                                   serialize: J -> string, startOffset: int, stopOffset: int)
    returns (h: Harvested)
    ensures Collector.Collect(pages, startOffset, stopOffset).None? ==>
              h == Harvested(Failure(PageRequestFailed), None, [])
    ensures Collector.Collect(pages, startOffset, stopOffset).Some? ==>
              var c := Collector.Collect(pages, startOffset, stopOffset).value;
              && h.starting == Some(Starting(Collector.LastOffset(c.offsets, stopOffset),
                                             Collector.RequestCount(c.total, startOffset, stopOffset), c.total))
              && (h.outcome.Success? <==>
                    forall id :: id in Collector.IdSet(c.items) ==> FetchById(conversations, id).outcome.Success?)
              && (h.outcome.Success? ==>
                    && |h.outcome.value| == |Collector.IdSet(c.items)|
                    && |h.progress| >= 1
                    && h.progress[|h.progress| - 1] == Collector.LastOffset(c.offsets, stopOffset))
              && (h.outcome.Failure? ==> h.outcome.error == FetchFailed(Retry.Exhausted(Retry.DefaultMaxAttempts)))
  {
    var collected := Collector.CollectIds(pages, startOffset, stopOffset);
    if collected.None? {
      return Harvested(Failure(PageRequestFailed), None, []);
    }
    var c := collected.value;
    var unique := Collector.Dedup(c.items);
    var lastOffset := Collector.LastOffset(c.offsets, stopOffset);
    var requested := Collector.RequestCount(c.total, startOffset, stopOffset);
    var starting := Starting(lastOffset, requested, c.total);
    var outcome, progress := FetchAll(unique, conversations, serialize, lastOffset);
    Collector.DistinctIdCount(unique);
    AllIdsFetched(unique, c.items, conversations);
    match outcome
    case Success(all) => h := Harvested(Success(all), Some(starting), progress);
    case Failure(e) => h := Harvested(Failure(FetchFailed(e)), Some(starting), progress);
  }
}
