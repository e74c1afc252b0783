/**
 * The row loop the two CSV conversion scripts share: csv.DictReader rows,
 * rows without a Channel ID skipped, every other row turned into a record
 * (a dict literal whose lookups and int() calls may raise), records appended
 * in row order until a row raises.
 */
module CsvRows {
  import opened Wrappers
  import opened PythonInt

  /**
   * A csv.DictReader row: header name to cell. A line shorter than the
   * header leaves None in the cells it lacks; a header without a column has
   * no key for it.
   */
  type Row = map<string, Option<string>>

  /** The exceptions the row loop can raise. */
  datatype PyError = KeyError(key: string) | ValueError(text: string)

  /** A record of the ranking CSV, the keys of the emitted JS object. */
  datatype RankingRecord = RankingRecord(id: string, title: Option<string>, country: Option<string>,
                                         category: string, thumbnail: string, subs: int, views: int)

  /** A record of the live-candidates CSV. */
  datatype LiveRecord = LiveRecord(id: string, title: Option<string>, lastLiveDate: Option<string>)

  /** The `export const` declarations of the generated default_channels.js, in file order. */
  datatype Export =
    | RankingData(ranking: seq<RankingRecord>)
    | LiveData(live: seq<LiveRecord>)
    | DefaultChannels(channels: seq<RankingRecord>)

  datatype JsModule = JsModule(exports: seq<Export>)

  /** `row.get('Channel ID')` is truthy: the column exists and the cell is a non-empty string. */
  predicate HasChannelId(row: Row) {
    "Channel ID" in row && row["Channel ID"].Some? && row["Channel ID"].value != ""
  }

  function ChannelId(row: Row): string
    requires HasChannelId(row)
  {
    row["Channel ID"].value
  }

  /** `row[key]`. */
  function Get(row: Row, key: string): (r: Result<Option<string>, PyError>)
    ensures r.Ok? <==> key in row
    ensures r.Ok? ==> r.value == row[key]
    ensures r.Err? ==> r.error == KeyError(key)
  {
    if key in row then Ok(row[key]) else Err(KeyError(key))
  }

  /** `int(cell) if cell else 0`: an absent or empty cell gives 0, a cell int() rejects raises ValueError. */
  function IntOrZero(cell: Option<string>): (r: Result<int, PyError>)
    ensures (cell.None? || cell.value == "") ==> r == Ok(0)
    ensures cell.Some? && cell.value != "" ==>
              (r.Ok? <==> PyInt(cell.value).Some?) && (r.Ok? ==> r.value == PyInt(cell.value).value)
    ensures r.Err? ==> r.error == ValueError(cell.value)
  {
    if cell.None? || cell.value == "" then Ok(0)
    else match PyInt(cell.value)
      case None => Err(ValueError(cell.value))
      case Some(n) => Ok(n)
  }

  /**
   * The ranking dict literal for a row with Channel ID `id`, evaluated key by
   * key: Channel Name, Country, Subscribers, Total Views; the first missing
   * column or unparsable figure raises.
   */
  function RankingRecordOf(id: string, row: Row): (r: Result<RankingRecord, PyError>)
    ensures r.Ok? <==>
      && "Channel Name" in row && "Country" in row && "Subscribers" in row && "Total Views" in row
      && IntOrZero(row["Subscribers"]).Ok? && IntOrZero(row["Total Views"]).Ok?
    ensures r.Ok? ==>
      && r.value.id == id && r.value.title == row["Channel Name"] && r.value.country == row["Country"]
      && r.value.category == "0" && r.value.thumbnail == ""
      && r.value.subs == IntOrZero(row["Subscribers"]).value
      && r.value.views == IntOrZero(row["Total Views"]).value
    ensures "Channel Name" !in row ==> r == Err(KeyError("Channel Name"))
  {
    var title :- Get(row, "Channel Name");
    var country :- Get(row, "Country");
    var subsCell :- Get(row, "Subscribers");
    var subs :- IntOrZero(subsCell);
    var viewsCell :- Get(row, "Total Views");
    var views :- IntOrZero(viewsCell);
    Ok(RankingRecord(id, title, country, "0", "", subs, views))
  }

  /** The live dict literal: Channel Name, then Last Live Date, which is None when absent or empty. */
  function LiveRecordOf(id: string, row: Row): (r: Result<LiveRecord, PyError>)
    ensures r.Ok? <==> "Channel Name" in row && "Last Live Date" in row
    ensures r.Ok? ==>
      && r.value.id == id && r.value.title == row["Channel Name"]
      && (r.value.lastLiveDate.Some? <==> row["Last Live Date"].Some? && row["Last Live Date"].value != "")
      && (r.value.lastLiveDate.Some? ==> r.value.lastLiveDate == row["Last Live Date"])
  {
    var title :- Get(row, "Channel Name");
    var last :- Get(row, "Last Live Date");
    Ok(LiveRecord(id, title, if last.Some? && last.value != "" then last else None))
  }

  /** A CSV row as written from a channel's figures, with `str()` of each count. */
  function RankingCsvRow(id: string, name: string, country: string, subs: int, views: int): Row
    requires StrFits(subs) && StrFits(views)
  {
    map["Channel ID" := Some(id), "Channel Name" := Some(name), "Country" := Some(country),
        "Subscribers" := Some(PyStr(subs)), "Total Views" := Some(PyStr(views))]
  }

  /** A row written from a channel's figures reads back as those figures, with the defaults filled in. */
  lemma RankingRecordRoundTrip(id: string, name: string, country: string, subs: int, views: int)
    requires StrFits(subs) && StrFits(views)
    ensures RankingRecordOf(id, RankingCsvRow(id, name, country, subs, views))
            == Ok(RankingRecord(id, Some(name), Some(country), "0", "", subs, views))
  {
    var row := RankingCsvRow(id, name, country, subs, views);
    assert row["Channel Name"] == Some(name) && row["Country"] == Some(country);
    assert row["Subscribers"] == Some(PyStr(subs)) && row["Total Views"] == Some(PyStr(views));
    IntOrZeroStr(subs);
    IntOrZeroStr(views);
    var r := RankingRecordOf(id, row);
    assert r.Ok?;
    assert r.value.subs == subs && r.value.views == views;
  }

  /** A cell holding `str(n)` converts to `n`. */
  lemma IntOrZeroStr(n: int)
    requires StrFits(n)
    ensures IntOrZero(Some(PyStr(n))) == Ok(n)
  {
    var s := PyStr(n);
    assert "" + s + "" == s;
    PyIntStr(n, "", "");
    assert PyInt(s) == Some(n);
    assert s != "";
  }

  // ---- The row loop ----

  /** The rows the loop does not skip, in order. */
  function Kept(rows: seq<Row>): (r: seq<Row>)
    ensures |r| <= |rows|
    ensures forall i :: 0 <= i < |r| ==> HasChannelId(r[i]) && r[i] in rows
    ensures forall x :: x in rows && HasChannelId(x) ==> x in r
  {
    if rows == [] then []
    else
      var rest := Kept(rows[1..]);
      var r := (if HasChannelId(rows[0]) then [rows[0]] else []) + rest;
      assert forall i :: 0 <= i < |rest| ==> rest[i] in rows;
      assert forall i :: 0 <= i < |r| ==> r[i] == rows[0] || r[i] in rest;
      r
  }

  /** Skipping distributes over concatenation: the kept rows keep their order. */
  lemma {:induction false} KeptConcat(a: seq<Row>, b: seq<Row>)
    ensures Kept(a + b) == Kept(a) + Kept(b)
  {
    if a == [] {
      assert a + b == b;
    } else {
      assert (a + b)[0] == a[0];
      assert (a + b)[1..] == a[1..] + b;
      KeptConcat(a[1..], b);
    }
  }

  /**
   * The records the loop appends and the exception that ends it, if any:
   * rows without a Channel ID are skipped, and the first row whose record
   * raises stops the loop with what was appended before it.
   */
  function RecordsOf<T>(rows: seq<Row>, f: (string, Row) -> Result<T, PyError>): (seq<T>, Option<PyError>)
  {
    if rows == [] then ([], None)
    else if !HasChannelId(rows[0]) then RecordsOf(rows[1..], f)
    else match f(ChannelId(rows[0]), rows[0])
      case Err(e) => ([], Some(e))
      case Ok(rec) =>
        var (data, err) := RecordsOf(rows[1..], f);
        ([rec] + data, err)
  }

  /**
   * A stretch of rows that raises nothing leaves the loop running: the
   * records of the rows after it follow its records.
   */
  lemma {:induction false} RecordsOfConcat<T>(a: seq<Row>, b: seq<Row>, f: (string, Row) -> Result<T, PyError>)
    requires RecordsOf(a, f).1.None?
    ensures RecordsOf(a + b, f) == (RecordsOf(a, f).0 + RecordsOf(b, f).0, RecordsOf(b, f).1)
  {
    if a == [] {
      assert a + b == b;
      assert RecordsOf(a, f).0 + RecordsOf(b, f).0 == RecordsOf(b, f).0;
    } else {
      assert (a + b)[0] == a[0];
      assert (a + b)[1..] == a[1..] + b;
      RecordsOfConcat(a[1..], b, f);
      if HasChannelId(a[0]) {
        var x := RecordsOf(a[1..], f).0;
        var y := RecordsOf(b, f).0;
        assert [f(ChannelId(a[0]), a[0]).value] + (x + y) == ([f(ChannelId(a[0]), a[0]).value] + x) + y;
      }
    }
  }

  /** The record built from a kept row. */
  ghost predicate BuiltFrom<T>(kept: seq<Row>, i: int, f: (string, Row) -> Result<T, PyError>, rec: T)
    requires 0 <= i < |kept| && HasChannelId(kept[i])
  {
    f(ChannelId(kept[i]), kept[i]) == Ok(rec)
  }

  /**
   * The records are those of a prefix of the kept rows, one per row and in
   * order; the loop stops with an exception exactly when a kept row's
   * record raises, and then it is the first such row's exception.
   */
  lemma RecordsOfSpec<T>(rows: seq<Row>, f: (string, Row) -> Result<T, PyError>)
    ensures var (data, err) := RecordsOf(rows, f);
            var kept := Kept(rows);
      && |data| <= |kept|
      && (forall i :: 0 <= i < |data| ==> BuiltFrom(kept, i, f, data[i]))
      && (err.None? <==> forall i :: 0 <= i < |kept| ==> f(ChannelId(kept[i]), kept[i]).Ok?)
      && (err.None? ==> |data| == |kept|)
      && (err.Some? ==> |data| < |kept| && f(ChannelId(kept[|data|]), kept[|data|]) == Err(err.value))
  {
    RecordsOfBuilt(rows, f);
    RecordsOfStop(rows, f);
  }

  /** Each record is built from the kept row at its own position. */
  lemma {:induction false} RecordsOfBuilt<T>(rows: seq<Row>, f: (string, Row) -> Result<T, PyError>)
    ensures var data := RecordsOf(rows, f).0;
            var kept := Kept(rows);
      && |data| <= |kept|
      && forall i :: 0 <= i < |data| ==> BuiltFrom(kept, i, f, data[i])
    decreases |rows|
  {
    if rows != [] {
      RecordsOfBuilt(rows[1..], f);
      var kept := Kept(rows);
      var rest := Kept(rows[1..]);
      if HasChannelId(rows[0]) {
        assert kept == [rows[0]] + rest;
        var data := RecordsOf(rows[1..], f).0;
        if f(ChannelId(rows[0]), rows[0]).Ok? {
          var all := [f(ChannelId(rows[0]), rows[0]).value] + data;
          assert RecordsOf(rows, f).0 == all;
          forall i | 0 <= i < |all| ensures BuiltFrom(kept, i, f, all[i]) {
            if i > 0 {
              assert all[i] == data[i - 1] && kept[i] == rest[i - 1];
              assert BuiltFrom(rest, i - 1, f, data[i - 1]);
            }
          }
        }
      } else {
        assert kept == rest;
      }
    }
  }

  /** Where the loop stops: at the end when no kept row raises, else at the first kept row that does. */
  lemma {:induction false} RecordsOfStop<T>(rows: seq<Row>, f: (string, Row) -> Result<T, PyError>)
    ensures StopsWhereRaises(rows, f)
    decreases |rows|
  {
    if rows != [] {
      RecordsOfStop(rows[1..], f);
      if !HasChannelId(rows[0]) {
        var kept := Kept(rows);
        assert kept == Kept(rows[1..]);
        assert RecordsOf(rows, f) == RecordsOf(rows[1..], f);
      } else if f(ChannelId(rows[0]), rows[0]).Err? {
        RecordsOfStopHead(rows, f);
      } else {
        RecordsOfStopCons(rows, f);
      }
    }
  }

  /**
   * The loop runs to the end exactly when no kept row raises; otherwise it
   * stops at the first kept row that raises, with that row's exception.
   */
  ghost predicate StopsWhereRaises<T>(rows: seq<Row>, f: (string, Row) -> Result<T, PyError>) {
    var (data, err) := RecordsOf(rows, f);
    var kept := Kept(rows);
    && (err.None? <==> forall i :: 0 <= i < |kept| ==> f(ChannelId(kept[i]), kept[i]).Ok?)
    && (err.None? ==> |data| == |kept|)
    && (err.Some? ==> |data| < |kept| && f(ChannelId(kept[|data|]), kept[|data|]) == Err(err.value))
  }

  /** A first row that has a Channel ID and converts moves the stopping point one kept row on. */
  lemma RecordsOfStopCons<T>(rows: seq<Row>, f: (string, Row) -> Result<T, PyError>)
    requires rows != [] && HasChannelId(rows[0]) && f(ChannelId(rows[0]), rows[0]).Ok?
    requires StopsWhereRaises(rows[1..], f)
    ensures StopsWhereRaises(rows, f)
  {
    var kept := Kept(rows);
    var rest := Kept(rows[1..]);
    assert kept == [rows[0]] + rest;
    var (data, err) := RecordsOf(rows[1..], f);
    var all := [f(ChannelId(rows[0]), rows[0]).value] + data;
    assert RecordsOf(rows, f) == (all, err);
    if err.None? {
      forall i | 0 <= i < |kept| ensures f(ChannelId(kept[i]), kept[i]).Ok? {
        if i > 0 {
          assert kept[i] == rest[i - 1];
        }
      }
    } else {
      assert kept[|all|] == rest[|data|];
      assert !f(ChannelId(kept[|all|]), kept[|all|]).Ok?;
    }
  }

  /** The first row has a Channel ID and its record raises: the loop stops there, with nothing appended. */
  lemma RecordsOfStopHead<T>(rows: seq<Row>, f: (string, Row) -> Result<T, PyError>)
    requires rows != [] && HasChannelId(rows[0]) && f(ChannelId(rows[0]), rows[0]).Err?
    ensures var (data, err) := RecordsOf(rows, f);
            var kept := Kept(rows);
      && data == [] && err.Some? && |kept| > 0
      && !f(ChannelId(kept[0]), kept[0]).Ok? && f(ChannelId(kept[0]), kept[0]) == Err(err.value)
  {
    var kept := Kept(rows);
    assert kept == [rows[0]] + Kept(rows[1..]);
    assert kept[0] == rows[0];
  }

  /**
   * `for row in reader: if not row.get('Channel ID'): continue;
   * data.append({...})`: the loop, leaving with the exception that ends it.
   */
  method Collect<T>(rows: seq<Row>, f: (string, Row) -> Result<T, PyError>)
    returns (data: seq<T>, err: Option<PyError>)
    ensures (data, err) == RecordsOf(rows, f)
  {
    data := [];
    var i := 0;
    while i < |rows|
      invariant 0 <= i <= |rows|
      invariant RecordsOf(rows, f).0 == data + RecordsOf(rows[i..], f).0
      invariant RecordsOf(rows, f).1 == RecordsOf(rows[i..], f).1
    {
      var row := rows[i];
      assert rows[i..][0] == row && rows[i..][1..] == rows[i + 1..];
      if HasChannelId(row) {
        var r := f(ChannelId(row), row);
        if r.Err? {
          assert data + [] == data;
          return data, Some(r.error);
        }
        assert data + ([r.value] + RecordsOf(rows[i + 1..], f).0)
               == (data + [r.value]) + RecordsOf(rows[i + 1..], f).0;
        data := data + [r.value];
      }
      i := i + 1;
    }
    assert data + [] == data;
    err := None;
  }
}
