/**
 * The single-file conversion script: the whole loop sits in one try block
 * together with the file writing, so a missing file or any row that raises
 * means no DEFAULT_CHANNELS module is written at all.
 */
module CsvConvert {
  import opened Wrappers
  import opened CsvRows
  import BackupConvert

  /** The generated module, or None when the script prints an error instead. */
  function CsvOutput(file: Option<seq<Row>>): (r: Option<JsModule>)
    ensures file.None? ==> r.None?
    ensures r.Some? ==> |r.value.exports| == 1 && r.value.exports[0].DefaultChannels?
  {
    if file.None? then None
    else
      var (data, err) := RecordsOf(file.value, RankingRecordOf);
      if err.Some? then None else Some(JsModule([DefaultChannels(data)]))
  }

  /** The script, file writing aside. */
  method ConvertCsv(file: Option<seq<Row>>) returns (out: Option<JsModule>)
    ensures out == CsvOutput(file)
  {
    if file.None? {
      return None;
    }
    var data, err := Collect(file.value, RankingRecordOf);
    if err.Some? {
      return None;
    }
    out := Some(JsModule([DefaultChannels(data)]));
  }

  /**
   * All or nothing: the module is written exactly when the file exists and
   * no kept row raises, and then it holds one record per kept row, in order.
   */
  lemma CsvOutputSpec(file: Option<seq<Row>>)
    ensures var r := CsvOutput(file);
      && (r.Some? <==>
            && file.Some?
            && var kept := Kept(file.value);
               forall i :: 0 <= i < |kept| ==> RankingRecordOf(ChannelId(kept[i]), kept[i]).Ok?)
      && (r.Some? ==>
            var kept := Kept(file.value);
            var channels := r.value.exports[0].channels;
            && |channels| == |kept|
            && forall i :: 0 <= i < |kept| ==> RankingRecordOf(ChannelId(kept[i]), kept[i]) == Ok(channels[i]))
  {
    if file.Some? {
      RecordsOfSpec(file.value, RankingRecordOf);
      var kept := Kept(file.value);
      var (data, err) := RecordsOf(file.value, RankingRecordOf);
      if err.None? {
        forall i | 0 <= i < |kept| ensures RankingRecordOf(ChannelId(kept[i]), kept[i]) == Ok(data[i]) {
          assert BuiltFrom(kept, i, RankingRecordOf, data[i]);
        }
      }
    }
  }

  /**
   * The two scripts agree on a ranking file that raises nothing: the
   * DEFAULT_CHANNELS written here is the RANKING_DATA of the backup script.
   */
  lemma AgreesWithBackup(rows: seq<Row>, liveFile: Option<seq<Row>>)
    requires RecordsOf(rows, RankingRecordOf).1.None?
    ensures CsvOutput(Some(rows)).Some?
    ensures CsvOutput(Some(rows)).value.exports[0].channels
            == BackupConvert.BackupOutput(Some(rows), liveFile).exports[0].ranking
  {
  }

  /**
   * Unlike the backup script, one raising row loses the rows before it too.
   */
  lemma RaisingRowLosesAll(before: seq<Row>, bad: Row, after: seq<Row>)
    requires RecordsOf(before, RankingRecordOf).1.None?
    requires HasChannelId(bad) && RankingRecordOf(ChannelId(bad), bad).Err?
    ensures CsvOutput(Some(before + [bad] + after)).None?
  {
    assert before + [bad] + after == before + ([bad] + after);
    RecordsOfConcat(before, [bad] + after, RankingRecordOf);
    assert ([bad] + after)[0] == bad;
  }
}
