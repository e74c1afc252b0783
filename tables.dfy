/**
 * The three D1 tables the handler reads and writes, as sequences of rows in
 * rowid order, and the single-statement updates it issues against them.
 */
module Tables {
  import opened Wrappers

  /** `Channels (id PRIMARY KEY, title, country, category, thumbnail)`. */
  datatype Channel = Channel(id: string, title: string, country: string, category: string, thumbnail: string)

  /**
   * `ChannelStats (channel_id, subs, views, rank_date)`; rank_date is held as
   * a day number (Calendar.DayNumber of the stored `YYYY-MM-DD` text).
   */
  datatype StatRow = StatRow(channelId: string, subs: int, views: int, rankDate: int)

  /** `LiveRankings (channel_name, video_title, viewers, thumbnail, video_id, region)`. */
  datatype LiveRow = LiveRow(channelName: string, videoTitle: string, viewers: int,
                             thumbnail: string, videoId: string, region: string)

  // ---- Channels ----

  /** `id` is the primary key of Channels. */
  predicate UniqueIds(t: seq<Channel>) {
    forall i, j :: 0 <= i < j < |t| ==> t[i].id != t[j].id
  }

  /** The position of the row with key `id`, if any. */
  function IdIndex(t: seq<Channel>, id: string): (r: Option<nat>)
    ensures r.Some? ==> r.value < |t| && t[r.value].id == id
    ensures r.None? <==> forall j :: 0 <= j < |t| ==> t[j].id != id
  {
    if t == [] then None
    else if t[0].id == id then Some(0)
    else match IdIndex(t[1..], id)
      case None => None
      case Some(k) => Some(k + 1)
  }

  /**
   * `INSERT INTO Channels ... ON CONFLICT(id) DO UPDATE SET country = excluded.country`:
   * a new id is appended, a known one only gets the new country.
   */
  function UpsertCountry(t: seq<Channel>, c: Channel): seq<Channel> {
    match IdIndex(t, c.id)
    case None => t + [c]
    case Some(k) => t[k := t[k].(country := c.country)]
  }

  lemma UpsertCountrySpec(t: seq<Channel>, c: Channel)
    requires UniqueIds(t)
    ensures var r := UpsertCountry(t, c);
      && UniqueIds(r)
      && (IdIndex(t, c.id).None? ==> r == t + [c])
      && (IdIndex(t, c.id).Some? ==>
            |r| == |t|
            && forall i :: 0 <= i < |t| ==>
                 r[i] == if t[i].id == c.id then t[i].(country := c.country) else t[i])
  {
  }

  /** `UPDATE Channels SET thumbnail = ? WHERE id = ?`. */
  function SetThumbnail(t: seq<Channel>, id: string, thumbnail: string): seq<Channel> {
    if t == [] then []
    else [if t[0].id == id then t[0].(thumbnail := thumbnail) else t[0]] + SetThumbnail(t[1..], id, thumbnail)
  }

  /** The update touches only the thumbnail of the rows with that id and inserts nothing. */
  lemma {:induction false} SetThumbnailSpec(t: seq<Channel>, id: string, thumbnail: string)
    ensures var r := SetThumbnail(t, id, thumbnail);
      && |r| == |t|
      && forall i :: 0 <= i < |t| ==>
           r[i] == if t[i].id == id then t[i].(thumbnail := thumbnail) else t[i]
  {
    if t != [] {
      SetThumbnailSpec(t[1..], id, thumbnail);
    }
  }

  // ---- ChannelStats ----

  predicate SameKey(a: StatRow, id: string, day: int) {
    a.channelId == id && a.rankDate == day
  }

  /** The rows stored under the key (channel_id, rank_date), in table order. */
  function KeyRows(s: seq<StatRow>, id: string, day: int): (r: seq<StatRow>)
    ensures |r| <= |s|
  {
    if s == [] then []
    else (if SameKey(s[0], id, day) then [s[0]] else []) + KeyRows(s[1..], id, day)
  }

  /** `WHERE channel_id = ?`: a channel's snapshots, in table order. */
  function ChannelRows(s: seq<StatRow>, id: string): (r: seq<StatRow>)
    ensures forall x :: x in r <==> x in s && x.channelId == id
  {
    if s == [] then []
    else (if s[0].channelId == id then [s[0]] else []) + ChannelRows(s[1..], id)
  }

  /** Deletes the rows stored under a key. */
  function RemoveKey(s: seq<StatRow>, id: string, day: int): seq<StatRow> {
    if s == [] then []
    else (if SameKey(s[0], id, day) then [] else [s[0]]) + RemoveKey(s[1..], id, day)
  }

  /**
   * `INSERT OR REPLACE INTO ChannelStats`, with (channel_id, rank_date) as the
   * uniqueness constraint: the conflicting rows are deleted and the new row appended.
   */
  function ReplaceStat(s: seq<StatRow>, row: StatRow): seq<StatRow> {
    RemoveKey(s, row.channelId, row.rankDate) + [row]
  }

  lemma {:induction false} KeyRowsAppend(s: seq<StatRow>, u: seq<StatRow>, id: string, day: int)
    ensures KeyRows(s + u, id, day) == KeyRows(s, id, day) + KeyRows(u, id, day)
  {
    if s != [] {
      assert (s + u)[0] == s[0] && (s + u)[1..] == s[1..] + u;
      KeyRowsAppend(s[1..], u, id, day);
      var head := if SameKey(s[0], id, day) then [s[0]] else [];
      assert KeyRows(s + u, id, day) == head + KeyRows(s[1..] + u, id, day);
      assert head + (KeyRows(s[1..], id, day) + KeyRows(u, id, day))
             == (head + KeyRows(s[1..], id, day)) + KeyRows(u, id, day);
    } else {
      assert s + u == u;
    }
  }

  lemma {:induction false} KeyRowsRemoveKey(s: seq<StatRow>, id: string, day: int, id2: string, day2: int)
    ensures KeyRows(RemoveKey(s, id, day), id2, day2)
            == if id == id2 && day == day2 then [] else KeyRows(s, id2, day2)
  {
    if s != [] {
      KeyRowsRemoveKey(s[1..], id, day, id2, day2);
      var head := if SameKey(s[0], id, day) then [] else [s[0]];
      KeyRowsAppend(head, RemoveKey(s[1..], id, day), id2, day2);
    }
  }

  /**
   * After a replace the key holds exactly the new row, and every other key
   * holds the same rows as before.
   */
  lemma ReplaceStatSpec(s: seq<StatRow>, row: StatRow, id: string, day: int)
    ensures KeyRows(ReplaceStat(s, row), id, day)
            == if SameKey(row, id, day) then [row] else KeyRows(s, id, day)
  {
    KeyRowsAppend(RemoveKey(s, row.channelId, row.rankDate), [row], id, day);
    KeyRowsRemoveKey(s, row.channelId, row.rankDate, id, day);
  }

  lemma {:induction false} RemoveKeyTwice(s: seq<StatRow>, id: string, day: int)
    ensures RemoveKey(RemoveKey(s, id, day), id, day) == RemoveKey(s, id, day)
  {
    if s != [] {
      RemoveKeyTwice(s[1..], id, day);
      var r := RemoveKey(s[1..], id, day);
      if !SameKey(s[0], id, day) {
        assert RemoveKey(s, id, day) == [s[0]] + r;
        assert ([s[0]] + r)[0] == s[0] && ([s[0]] + r)[1..] == r;
      } else {
        assert RemoveKey(s, id, day) == r;
      }
    }
  }

  lemma RemoveKeyDistributes(s: seq<StatRow>, u: seq<StatRow>, id: string, day: int)
    ensures RemoveKey(s + u, id, day) == RemoveKey(s, id, day) + RemoveKey(u, id, day)
  {
    if s != [] {
      assert (s + u)[0] == s[0] && (s + u)[1..] == s[1..] + u;
      RemoveKeyDistributes(s[1..], u, id, day);
      var head := if SameKey(s[0], id, day) then [] else [s[0]];
      assert RemoveKey(s + u, id, day) == head + RemoveKey(s[1..] + u, id, day);
      assert head + (RemoveKey(s[1..], id, day) + RemoveKey(u, id, day))
             == (head + RemoveKey(s[1..], id, day)) + RemoveKey(u, id, day);
    } else {
      assert s + u == u;
    }
  }

  /** Writing a key twice leaves what writing only the second row leaves: a second sync replaces, never adds. */
  lemma ReplaceStatTwice(s: seq<StatRow>, a: StatRow, b: StatRow)
    requires a.channelId == b.channelId && a.rankDate == b.rankDate
    ensures ReplaceStat(ReplaceStat(s, a), b) == ReplaceStat(s, b)
  {
    var id, day := a.channelId, a.rankDate;
    RemoveKeyDistributes(RemoveKey(s, id, day), [a], id, day);
    assert RemoveKey([a], id, day) == [];
    RemoveKeyTwice(s, id, day);
  }

  // ---- LiveRankings ----

  /** `DELETE FROM LiveRankings WHERE region = ?`. */
  function DeleteRegion(t: seq<LiveRow>, region: string): (r: seq<LiveRow>)
    ensures forall x :: x in r <==> x in t && x.region != region
  {
    if t == [] then []
    else (if t[0].region == region then [] else [t[0]]) + DeleteRegion(t[1..], region)
  }

  /** The rows of one region, in table order. */
  function RegionRows(t: seq<LiveRow>, region: string): (r: seq<LiveRow>)
    ensures forall x :: x in r <==> x in t && x.region == region
  {
    if t == [] then []
    else (if t[0].region == region then [t[0]] else []) + RegionRows(t[1..], region)
  }

  lemma {:induction false} RegionRowsAppend(t: seq<LiveRow>, u: seq<LiveRow>, region: string)
    ensures RegionRows(t + u, region) == RegionRows(t, region) + RegionRows(u, region)
  {
    if t != [] {
      assert (t + u)[0] == t[0] && (t + u)[1..] == t[1..] + u;
      RegionRowsAppend(t[1..], u, region);
      var head := if t[0].region == region then [t[0]] else [];
      assert RegionRows(t + u, region) == head + RegionRows(t[1..] + u, region);
      assert head + (RegionRows(t[1..], region) + RegionRows(u, region))
             == (head + RegionRows(t[1..], region)) + RegionRows(u, region);
    } else {
      assert t + u == u;
    }
  }

  /** After the delete, the region has no rows and every other region keeps its rows in order. */
  lemma {:induction false} DeleteRegionRows(t: seq<LiveRow>, region: string, other: string)
    ensures RegionRows(DeleteRegion(t, region), other) == if other == region then [] else RegionRows(t, other)
  {
    if t != [] {
      DeleteRegionRows(t[1..], region, other);
      var head := if t[0].region == region then [] else [t[0]];
      RegionRowsAppend(head, DeleteRegion(t[1..], region), other);
    }
  }
}
