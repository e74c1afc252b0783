/**
 * `handleDailySync`: the channel ids are split into batches of 50, each batch
 * is looked up, and every returned channel gets its thumbnail updated and one
 * snapshot for today written.
 */
module DailySync {
  import opened Wrappers
  import opened Tables
  import opened Upstream

  /** The API's maximum number of ids per `channels` request. */
  const BatchSize: nat := 50

  function Ids(t: seq<Channel>): (ids: seq<string>)
    ensures |ids| == |t| && forall i :: 0 <= i < |t| ==> ids[i] == t[i].id
  {
    seq(|t|, i requires 0 <= i < |t| => t[i].id)
  }

  function Flatten(chunks: seq<seq<string>>): seq<string> {
    if chunks == [] then [] else Flatten(chunks[..|chunks| - 1]) + chunks[|chunks| - 1]
  }

  /** The batches `slice(i, i + 50)` for i = 0, 50, 100, ... below |ids|. */
  function Chunks(ids: seq<string>): seq<seq<string>>
    decreases |ids|
  {
    if ids == [] then []
    else if |ids| <= BatchSize then [ids]
    else [ids[..BatchSize]] + Chunks(ids[BatchSize..])
  }

  lemma {:induction false} FlattenPrepend(c: seq<string>, cs: seq<seq<string>>)
    ensures Flatten([c] + cs) == c + Flatten(cs)
    decreases |cs|
  {
    if cs != [] {
      var all := [c] + cs;
      assert all[..|all| - 1] == [c] + cs[..|cs| - 1];
      FlattenPrepend(c, cs[..|cs| - 1]);
    }
  }

  /**
   * The batches concatenate back to the ids in order; each holds 1 to 50 ids,
   * and every batch but the last holds exactly 50.
   */
  lemma {:induction false} ChunksSpec(ids: seq<string>)
    ensures Flatten(Chunks(ids)) == ids
    ensures forall k :: 0 <= k < |Chunks(ids)| ==> 0 < |Chunks(ids)[k]| <= BatchSize
    ensures forall k :: 0 <= k < |Chunks(ids)| - 1 ==> |Chunks(ids)[k]| == BatchSize
    decreases |ids|
  {
    if ids != [] && |ids| > BatchSize {
      var rest := Chunks(ids[BatchSize..]);
      ChunksSpec(ids[BatchSize..]);
      FlattenPrepend(ids[..BatchSize], rest);
      assert Chunks(ids) == [ids[..BatchSize]] + rest;
      assert ids[..BatchSize] + ids[BatchSize..] == ids;
    } else if ids != [] {
      assert Flatten([ids]) == Flatten([]) + ids;
    }
  }

  /** The batching loop of handleDailySync: `for (i = 0; i < n; i += 50) chunks.push(slice(i, i + 50))`. */
  method BuildChunks(ids: seq<string>) returns (chunks: seq<seq<string>>)
    ensures chunks == Chunks(ids)
    ensures Flatten(chunks) == ids
    ensures forall k :: 0 <= k < |chunks| ==> 0 < |chunks[k]| <= BatchSize
    ensures forall k :: 0 <= k < |chunks| - 1 ==> |chunks[k]| == BatchSize
  {
    chunks := [];
    var i := 0;
    while i < |ids|
      invariant 0 <= i
      invariant chunks + Chunks(ids[if i <= |ids| then i else |ids|..]) == Chunks(ids)
    {
      var end := if i + BatchSize <= |ids| then i + BatchSize else |ids|;
      assert Chunks(ids[i..]) == [ids[i..end]] + Chunks(ids[if i + BatchSize <= |ids| then i + BatchSize else |ids|..]) by {
        if |ids[i..]| > BatchSize {
          assert ids[i..][..BatchSize] == ids[i..end];
          assert ids[i..][BatchSize..] == ids[i + BatchSize..];
        } else {
          assert ids[i..] == ids[i..end];
          assert ids[|ids|..] == [];
        }
      }
      chunks := chunks + [ids[i..end]];
      i := i + BatchSize;
    }
    ChunksSpec(ids);
  }

  /** The snapshot row written for a returned channel: an absent count is 0. */
  function StatOf(item: ChannelItem, today: int): (row: StatRow)
    ensures row.channelId == item.id && row.rankDate == today
    ensures row.subs == (if item.subscriberCount.Some? then item.subscriberCount.value else 0)
    ensures row.views == (if item.viewCount.Some? then item.viewCount.value else 0)
  {
    StatRow(item.id, item.subscriberCount.GetOr(0), item.viewCount.GetOr(0), today)
  }

  /** The thumbnail updates of the returned items, in order. */
  function ThumbAll(t: seq<Channel>, items: seq<ChannelItem>): seq<Channel>
    decreases |items|
  {
    if items == [] then t
    else ThumbAll(SetThumbnail(t, items[0].id, items[0].defaultThumbnail), items[1..])
  }

  /** The snapshot replacements of the returned items, in order. */
  function StatAll(s: seq<StatRow>, items: seq<ChannelItem>, today: int): seq<StatRow>
    decreases |items|
  {
    if items == [] then s
    else StatAll(ReplaceStat(s, StatOf(items[0], today)), items[1..], today)
  }

  /** The last returned item for channel `id`, if any. */
  function LastWith(items: seq<ChannelItem>, id: string): (r: Option<ChannelItem>)
    ensures r.Some? ==> r.value in items && r.value.id == id
    ensures r.Some? ==> exists i :: 0 <= i < |items| && items[i] == r.value
                                    && forall j :: i < j < |items| ==> items[j].id != id
    ensures r.None? <==> forall x :: x in items ==> x.id != id
  {
    if items == [] then None
    else match LastWith(items[1..], id)
      case Some(x) => Some(x)
      case None => if items[0].id == id then Some(items[0]) else None
  }

  lemma {:induction false} ThumbAllConcat(t: seq<Channel>, a: seq<ChannelItem>, b: seq<ChannelItem>)
    ensures ThumbAll(t, a + b) == ThumbAll(ThumbAll(t, a), b)
    decreases |a|
  {
    if a != [] {
      assert (a + b)[0] == a[0] && (a + b)[1..] == a[1..] + b;
      ThumbAllConcat(SetThumbnail(t, a[0].id, a[0].defaultThumbnail), a[1..], b);
    } else {
      assert a + b == b;
    }
  }

  lemma {:induction false} StatAllConcat(s: seq<StatRow>, a: seq<ChannelItem>, b: seq<ChannelItem>, today: int)
    ensures StatAll(s, a + b, today) == StatAll(StatAll(s, a, today), b, today)
    decreases |a|
  {
    if a != [] {
      assert (a + b)[0] == a[0] && (a + b)[1..] == a[1..] + b;
      StatAllConcat(ReplaceStat(s, StatOf(a[0], today)), a[1..], b, today);
    } else {
      assert a + b == b;
    }
  }

  /**
   * The thumbnail updates insert no channel, keep every row's place, id,
   * title, country and category, and leave each row with the thumbnail of the
   * last returned item for its id, or its own when none was returned.
   */
  lemma {:induction false} ThumbAllSpec(t: seq<Channel>, items: seq<ChannelItem>)
    ensures var r := ThumbAll(t, items);
      && |r| == |t|
      && forall i :: 0 <= i < |t| ==>
           r[i] == t[i].(thumbnail := match LastWith(items, t[i].id)
                                      case Some(x) => x.defaultThumbnail
                                      case None => t[i].thumbnail)
    decreases |items|
  {
    if items != [] {
      var t1 := SetThumbnail(t, items[0].id, items[0].defaultThumbnail);
      SetThumbnailSpec(t, items[0].id, items[0].defaultThumbnail);
      ThumbAllSpec(t1, items[1..]);
    }
  }

  /**
   * After the snapshot writes, the key (id, today) of every returned channel
   * holds exactly one row, made from the last item returned for it; every
   * other key holds the same rows as before.
   */
  lemma {:induction false} StatAllSpec(s: seq<StatRow>, items: seq<ChannelItem>, today: int, id: string, day: int)
    ensures KeyRows(StatAll(s, items, today), id, day)
            == if day == today && LastWith(items, id).Some? then [StatOf(LastWith(items, id).value, today)]
               else KeyRows(s, id, day)
    decreases |items|
  {
    if items != [] {
      var s1 := ReplaceStat(s, StatOf(items[0], today));
      ReplaceStatSpec(s, StatOf(items[0], today), id, day);
      StatAllSpec(s1, items[1..], today, id, day);
    }
  }

  /** The items returned for the batches, in order, up to a rejected request. */
  function SyncedItems(chunks: seq<seq<string>>, lookup: ChannelsRequest -> Response<ChannelItem>): seq<ChannelItem>
    decreases |chunks|
  {
    if chunks == [] then []
    else match lookup(ChannelsRequest(chunks[0]))
      case NetworkError => []
      case Json(None) => SyncedItems(chunks[1..], lookup)
      case Json(Some(items)) => items + SyncedItems(chunks[1..], lookup)
  }

  /** Whether every batch's request got a JSON answer. */
  function AllAnswered(chunks: seq<seq<string>>, lookup: ChannelsRequest -> Response<ChannelItem>): Outcome
    decreases |chunks|
  {
    if chunks == [] then Completed
    else if lookup(ChannelsRequest(chunks[0])).NetworkError? then Threw
    else AllAnswered(chunks[1..], lookup)
  }

  /** Unfolding the batch loop by one batch. */
  lemma SyncStep(chunks: seq<seq<string>>, k: nat, lookup: ChannelsRequest -> Response<ChannelItem>)
    requires k < |chunks|
    ensures var res := lookup(ChannelsRequest(chunks[k]));
      && (res.NetworkError? ==> SyncedItems(chunks[k..], lookup) == [] && AllAnswered(chunks[k..], lookup) == Threw)
      && (res.Json? ==> AllAnswered(chunks[k..], lookup) == AllAnswered(chunks[k + 1..], lookup))
      && (res.Json? && res.items.None? ==> SyncedItems(chunks[k..], lookup) == SyncedItems(chunks[k + 1..], lookup))
      && (res.Json? && res.items.Some? ==>
            SyncedItems(chunks[k..], lookup) == res.items.value + SyncedItems(chunks[k + 1..], lookup))
  {
    assert chunks[k..][0] == chunks[k] && chunks[k..][1..] == chunks[k + 1..];
  }

  /** The items of one answered batch: none when the answer has no `items`. */
  function BatchItems(res: Response<ChannelItem>): seq<ChannelItem>
    requires res.Json?
  {
    if res.items.Some? then res.items.value else []
  }

  /** Past an answered batch, the items seen so far grow by that batch's items. */
  lemma SyncAdvance(chunks: seq<seq<string>>, k: nat, lookup: ChannelsRequest -> Response<ChannelItem>,
                    done: seq<ChannelItem>)
    requires k < |chunks| && lookup(ChannelsRequest(chunks[k])).Json?
    ensures done + SyncedItems(chunks[k..], lookup)
            == (done + BatchItems(lookup(ChannelsRequest(chunks[k])))) + SyncedItems(chunks[k + 1..], lookup)
    ensures AllAnswered(chunks[k..], lookup) == AllAnswered(chunks[k + 1..], lookup)
  {
    SyncStep(chunks, k, lookup);
    var items := BatchItems(lookup(ChannelsRequest(chunks[k])));
    assert done + (items + SyncedItems(chunks[k + 1..], lookup))
           == (done + items) + SyncedItems(chunks[k + 1..], lookup);
  }
}
