/** `performMassDiscover`: the category sweep that upserts channels of popular videos. */
module Discovery {
  import opened Wrappers
  import opened Tables
  import opened Upstream

  /** The sweep's categories, in order; "" asks for all categories. */
  const Categories: seq<string> := ["", "1", "10", "17", "20", "23", "24", "25", "28"]

  /** The Channels row a popular video's snippet yields: `categoryId || "0"`. */
  function ChannelOf(v: PopularVideo, region: string): (c: Channel)
    ensures c.id == v.channelId && c.country == region
    ensures c.title == v.channelTitle && c.thumbnail == v.defaultThumbnail
    ensures v.categoryId.Some? && v.categoryId.value != "" ==> c.category == v.categoryId.value
    ensures v.categoryId.None? || v.categoryId.value == "" ==> c.category == "0"
  {
    Channel(v.channelId, v.channelTitle, region,
            if v.categoryId.Some? && v.categoryId.value != "" then v.categoryId.value else "0",
            v.defaultThumbnail)
  }

  /** One category's batch of upserts, in item order. */
  function UpsertAll(t: seq<Channel>, items: seq<PopularVideo>, region: string): seq<Channel>
    decreases |items|
  {
    if items == [] then t
    else UpsertAll(UpsertCountry(t, ChannelOf(items[0], region)), items[1..], region)
  }

  /**
   * The sweep over `cats` against the API `popular`: the final table, and
   * whether a request rejected (which ends the sweep where it is).
   */
  function Discover(t: seq<Channel>, region: string, cats: seq<string>,
                    popular: PopularRequest -> Response<PopularVideo>): (seq<Channel>, Outcome)
    decreases |cats|
  {
    if cats == [] then (t, Completed)
    else match popular(PopularRequest(region, cats[0]))
      case NetworkError => (t, Threw)
      case Json(None) => Discover(t, region, cats[1..], popular)
      case Json(Some(items)) => Discover(UpsertAll(t, items, region), region, cats[1..], popular)
  }

  /** The items the sweep upserted, category by category, up to a rejected request. */
  function SweptItems(region: string, cats: seq<string>,
                      popular: PopularRequest -> Response<PopularVideo>): seq<PopularVideo>
    decreases |cats|
  {
    if cats == [] then []
    else match popular(PopularRequest(region, cats[0]))
      case NetworkError => []
      case Json(None) => SweptItems(region, cats[1..], popular)
      case Json(Some(items)) => items + SweptItems(region, cats[1..], popular)
  }

  /**
   * `r` grew from `t` the way discovery in `region` grows a table: ids stay
   * unique, existing rows keep their place and all fields but a country set to
   * `region`, and rows are added only at the end, for new ids, with country `region`.
   */
  predicate Grown(t: seq<Channel>, r: seq<Channel>, region: string) {
    && UniqueIds(r)
    && |t| <= |r|
    && (forall i :: 0 <= i < |t| ==> r[i] == t[i] || r[i] == t[i].(country := region))
    && (forall i :: |t| <= i < |r| ==> r[i].country == region && IdIndex(t, r[i].id).None?)
  }

  /** The channel ids the items name. */
  function ItemIds(items: seq<PopularVideo>): set<string> {
    set v | v in items :: v.channelId
  }

  /**
   * Only rows of channels the items name have changed: `ON CONFLICT(id)`
   * updates the conflicting row and no other.
   */
  predicate OnlyNamed(t: seq<Channel>, r: seq<Channel>, items: seq<PopularVideo>)
    requires |t| <= |r|
  {
    forall i :: 0 <= i < |t| && r[i] != t[i] ==> t[i].id in ItemIds(items)
  }

  lemma ItemIdsConcat(a: seq<PopularVideo>, b: seq<PopularVideo>)
    ensures ItemIds(a + b) == ItemIds(a) + ItemIds(b)
  {
    assert forall v :: v in a + b <==> v in a || v in b;
  }

  lemma GrownTrans(a: seq<Channel>, b: seq<Channel>, c: seq<Channel>, region: string)
    requires Grown(a, b, region) && Grown(b, c, region)
    ensures Grown(a, c, region)
  {
  }

  /** In a table with unique ids, the row at `k` is the one IdIndex finds. */
  lemma IdIndexAt(t: seq<Channel>, k: nat)
    requires UniqueIds(t) && k < |t|
    ensures IdIndex(t, t[k].id) == Some(k)
  {
  }

  /** Row `k` holds `id` with country `region`. */
  predicate HasCountry(t: seq<Channel>, id: string, region: string) {
    IdIndex(t, id).Some? && t[IdIndex(t, id).value].country == region
  }

  lemma GrownKeepsCountry(t: seq<Channel>, r: seq<Channel>, region: string, id: string)
    requires UniqueIds(t) && Grown(t, r, region) && HasCountry(t, id, region)
    ensures HasCountry(r, id, region)
  {
    var k := IdIndex(t, id).value;
    IdIndexAt(r, k);
  }

  lemma UpsertGrows(t: seq<Channel>, v: PopularVideo, region: string)
    requires UniqueIds(t)
    ensures var r := UpsertCountry(t, ChannelOf(v, region));
            Grown(t, r, region) && HasCountry(r, v.channelId, region) && OnlyNamed(t, r, [v])
            && forall i :: |t| <= i < |r| ==> r[i] == ChannelOf(v, region)
  {
    var c := ChannelOf(v, region);
    UpsertCountrySpec(t, c);
    var r := UpsertCountry(t, c);
    assert ItemIds([v]) == {v.channelId};
    if IdIndex(t, c.id).None? {
      IdIndexAt(r, |t|);
    } else {
      var k := IdIndex(t, c.id).value;
      IdIndexAt(r, k);
    }
  }

  /** Every item's channel is in `r` with country `region`. */
  predicate Covers(r: seq<Channel>, items: seq<PopularVideo>, region: string) {
    forall v :: v in items ==> HasCountry(r, v.channelId, region)
  }

  /** The rows the items would insert. */
  function ChannelsOf(items: seq<PopularVideo>, region: string): (cs: seq<Channel>)
    ensures |cs| == |items|
  {
    seq(|items|, k requires 0 <= k < |items| => ChannelOf(items[k], region))
  }

  lemma ChannelsOfConcat(a: seq<PopularVideo>, b: seq<PopularVideo>, region: string)
    ensures ChannelsOf(a + b, region) == ChannelsOf(a, region) + ChannelsOf(b, region)
  {
  }

  /** Every row `r` holds beyond the first `n` is the row of one of the items. */
  predicate AddedFrom(r: seq<Channel>, n: nat, items: seq<PopularVideo>, region: string) {
    forall i :: n <= i < |r| ==> r[i] in ChannelsOf(items, region)
  }

  /** Chaining two growth steps: t to t1 by `a`, t1 to r by `b`. */
  lemma GrowthChain(t: seq<Channel>, t1: seq<Channel>, r: seq<Channel>, region: string,
                    a: seq<PopularVideo>, b: seq<PopularVideo>, ab: seq<PopularVideo>)
    requires ab == a + b
    requires UniqueIds(t)
    requires Grown(t, t1, region) && Covers(t1, a, region) && AddedFrom(t1, |t|, a, region)
    requires Grown(t1, r, region) && Covers(r, b, region) && AddedFrom(r, |t1|, b, region)
    requires OnlyNamed(t, t1, a) && OnlyNamed(t1, r, b)
    ensures Grown(t, r, region) && Covers(r, ab, region) && AddedFrom(r, |t|, ab, region)
    ensures OnlyNamed(t, r, ab)
  {
    GrownTrans(t, t1, r, region);
    ItemIdsConcat(a, b);
    forall i | 0 <= i < |t| && r[i] != t[i] ensures t[i].id in ItemIds(a + b) {
      if t1[i] == t[i] {
        assert r[i] != t1[i];
      }
    }
    forall v | v in a + b ensures HasCountry(r, v.channelId, region) {
      if v in a {
        GrownKeepsCountry(t1, r, region, v.channelId);
      }
    }
    ChannelsOfConcat(a, b, region);
    forall i | |t| <= i < |t1| ensures r[i] in ChannelsOf(a + b, region) {
      assert r[i] == t1[i] || r[i] == t1[i].(country := region);
    }
    assert AddedFrom(r, |t|, a + b, region);
  }

  /**
   * One category's batch: the table grows as discovery grows it, every item's
   * channel ends with country `region`, every added row is the row of one of
   * the items, and only rows of channels the items name change.
   */
  lemma {:induction false} UpsertAllSpec(t: seq<Channel>, items: seq<PopularVideo>, region: string)
    requires UniqueIds(t)
    ensures var r := UpsertAll(t, items, region);
      Grown(t, r, region) && Covers(r, items, region) && AddedFrom(r, |t|, items, region)
      && OnlyNamed(t, r, items)
    decreases |items|
  {
    if items != [] {
      var v := items[0];
      var t1 := UpsertCountry(t, ChannelOf(v, region));
      UpsertStep(t, v, region);
      UpsertAllSpec(t1, items[1..], region);
      var r := UpsertAll(t1, items[1..], region);
      assert UpsertAll(t, items, region) == r;
      assert [v] + items[1..] == items;
      GrowthChain(t, t1, r, region, [v], items[1..], items);
    }
  }

  /** One upsert stated as a one-item batch. */
  lemma UpsertStep(t: seq<Channel>, v: PopularVideo, region: string)
    requires UniqueIds(t)
    ensures var r := UpsertCountry(t, ChannelOf(v, region));
      Grown(t, r, region) && Covers(r, [v], region) && AddedFrom(r, |t|, [v], region)
      && OnlyNamed(t, r, [v])
  {
    UpsertGrows(t, v, region);
    assert ChannelsOf([v], region) == [ChannelOf(v, region)];
  }

  /**
   * The whole sweep: the table grows as discovery grows it, every swept item's
   * channel has country `region`, added rows come from swept items, only
   * rows of channels a swept item names change, and the sweep completes
   * exactly when no request rejects.
   */
  lemma {:induction false} DiscoverSpec(t: seq<Channel>, region: string, cats: seq<string>,
                                        popular: PopularRequest -> Response<PopularVideo>)
    requires UniqueIds(t)
    ensures var (r, outcome) := Discover(t, region, cats, popular);
      && Grown(t, r, region)
      && Covers(r, SweptItems(region, cats, popular), region)
      && AddedFrom(r, |t|, SweptItems(region, cats, popular), region)
      && OnlyNamed(t, r, SweptItems(region, cats, popular))
      && (outcome == Completed <==>
            forall k :: 0 <= k < |cats| ==> !popular(PopularRequest(region, cats[k])).NetworkError?)
    decreases |cats|
  {
    if cats != [] {
      match popular(PopularRequest(region, cats[0]))
      case NetworkError =>
      case Json(None) =>
        DiscoverSpec(t, region, cats[1..], popular);
        AllCategoriesAnswered(region, cats, popular);
      case Json(Some(items)) =>
        UpsertAllSpec(t, items, region);
        var t1 := UpsertAll(t, items, region);
        DiscoverSpec(t1, region, cats[1..], popular);
        AllCategoriesAnswered(region, cats, popular);
        var r := Discover(t1, region, cats[1..], popular).0;
        GrowthChain(t, t1, r, region, items, SweptItems(region, cats[1..], popular), SweptItems(region, cats, popular));
    }
  }

  lemma AllCategoriesAnswered(region: string, cats: seq<string>, popular: PopularRequest -> Response<PopularVideo>)
    requires cats != []
    ensures (forall k :: 0 <= k < |cats| ==> !popular(PopularRequest(region, cats[k])).NetworkError?)
        <==> !popular(PopularRequest(region, cats[0])).NetworkError?
             && forall k :: 0 <= k < |cats[1..]| ==> !popular(PopularRequest(region, cats[1..][k])).NetworkError?
  {
    if forall k :: 0 <= k < |cats[1..]| ==> !popular(PopularRequest(region, cats[1..][k])).NetworkError? {
      forall k | 1 <= k < |cats| ensures !popular(PopularRequest(region, cats[k])).NetworkError? {
        assert cats[k] == cats[1..][k - 1];
      }
    }
  }
}
