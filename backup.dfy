/**
 * The backup conversion script: the ranking CSV and the live-candidates CSV
 * are each read in a try block of their own, and whatever the two lists hold
 * afterwards is written out as RANKING_DATA and LIVE_DATA. A file that is
 * missing leaves its list empty; a row that raises ends that file's loop but
 * keeps the records appended before it and does not touch the other file.
 */
module BackupConvert {
  import opened Wrappers
  import opened CsvRows

  /**
   * The list one try block leaves behind: empty when the file does not
   * exist, else the records appended before the loop ended, raised or not.
   */
  function Loaded<T>(file: Option<seq<Row>>, f: (string, Row) -> Result<T, PyError>): (r: seq<T>)
    ensures file.None? ==> r == []
  {
    if file.None? then [] else RecordsOf(file.value, f).0
  }

  /** The generated module: RANKING_DATA, then LIVE_DATA. */
  function BackupOutput(rankingFile: Option<seq<Row>>, liveFile: Option<seq<Row>>): (m: JsModule)
    ensures |m.exports| == 2 && m.exports[0].RankingData? && m.exports[1].LiveData?
  {
    JsModule([RankingData(Loaded(rankingFile, RankingRecordOf)), LiveData(Loaded(liveFile, LiveRecordOf))])
  }

  /** One try block: the loop over the file if it exists, the exception printed and dropped. */
  method LoadFile<T>(file: Option<seq<Row>>, f: (string, Row) -> Result<T, PyError>) returns (data: seq<T>)
    ensures data == Loaded(file, f)
  {
    data := [];
    if file.Some? {
      var err;
      data, err := Collect(file.value, f);
    }
  }

  /** The whole script, file writing aside. */
  method ConvertBackup(rankingFile: Option<seq<Row>>, liveFile: Option<seq<Row>>) returns (out: JsModule)
    ensures out == BackupOutput(rankingFile, liveFile)
  {
    var ranking := LoadFile(rankingFile, RankingRecordOf);
    var live := LoadFile(liveFile, LiveRecordOf);
    out := JsModule([RankingData(ranking), LiveData(live)]);
  }

  /**
   * What a try block keeps: one record per kept row of a prefix of the kept
   * rows, in order, and every kept row's record when none of them raises.
   */
  lemma LoadedSpec<T>(rows: seq<Row>, f: (string, Row) -> Result<T, PyError>)
    ensures var r := Loaded(Some(rows), f);
            var kept := Kept(rows);
      && |r| <= |kept|
      && (forall i :: 0 <= i < |r| ==> f(ChannelId(kept[i]), kept[i]) == Ok(r[i]))
      && ((forall i :: 0 <= i < |kept| ==> f(ChannelId(kept[i]), kept[i]).Ok?) ==> |r| == |kept|)
  {
    RecordsOfSpec(rows, f);
    var kept := Kept(rows);
    var r := Loaded(Some(rows), f);
    forall i | 0 <= i < |r| ensures f(ChannelId(kept[i]), kept[i]) == Ok(r[i]) {
      assert BuiltFrom(kept, i, f, r[i]);
    }
  }

  /**
   * RANKING_DATA holds, for a prefix of the kept ranking rows, the row's
   * Channel ID with category "0" and an empty thumbnail; LIVE_DATA depends
   * on the live file alone, whatever happened to the ranking file.
   */
  lemma BackupOutputSpec(rankingFile: Option<seq<Row>>, liveFile: Option<seq<Row>>, otherRanking: Option<seq<Row>>)
    ensures var ranking := BackupOutput(rankingFile, liveFile).exports[0].ranking;
      && (rankingFile.None? ==> ranking == [])
      && (rankingFile.Some? ==>
            var kept := Kept(rankingFile.value);
            && |ranking| <= |kept|
            && forall i :: 0 <= i < |ranking| ==>
                 && ranking[i].id == ChannelId(kept[i])
                 && ranking[i].category == "0" && ranking[i].thumbnail == "")
    ensures BackupOutput(rankingFile, liveFile).exports[1] == BackupOutput(otherRanking, liveFile).exports[1]
  {
    if rankingFile.Some? {
      LoadedSpec(rankingFile.value, RankingRecordOf);
    }
  }

  /**
   * A ranking row that raises ends the ranking loop: the records of the rows
   * before it are kept and the rows after it are never read.
   */
  lemma RankingStopsAtRaisingRow(before: seq<Row>, bad: Row, after: seq<Row>)
    requires RecordsOf(before, RankingRecordOf).1.None?
    requires HasChannelId(bad) && RankingRecordOf(ChannelId(bad), bad).Err?
    ensures Loaded(Some(before + [bad] + after), RankingRecordOf) == Loaded(Some(before), RankingRecordOf)
  {
    assert before + [bad] + after == before + ([bad] + after);
    RecordsOfConcat(before, [bad] + after, RankingRecordOf);
    assert ([bad] + after)[0] == bad;
    assert RecordsOf([bad] + after, RankingRecordOf).0 == [];
    assert Loaded(Some(before), RankingRecordOf) + [] == Loaded(Some(before), RankingRecordOf);
  }
}
