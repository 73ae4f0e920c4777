/**
  The "Show Statistics" action `show_statistics`: with no keyword selected it
  opens a warning and stops. Otherwise it lists the text files under the
  saved base directory, re-reads the keyword file, builds the index and opens
  one information dialog holding a `word: N` line per selected word, in
  selection order, joined by line breaks.

  The selection, the saved base directory, the directory tree, the file
  contents and the keyword file are inputs. A selected word that is not a key
  of the freshly built index (the keyword file changed after the list box was
  filled) makes `index[word]` raise `KeyError`: no statistics dialog opens and
  the exception, with that word, escapes the handler.
*/
module Statistics {
  import opened Wrappers
  import opened PyStr
  import opened Messages
  import opened Enumerator
  import opened KeywordLoader
  import opened Indexer

  /** The dialog opened when nothing is selected. */
  const NoSelectionWarning: Dialog := ShowWarning("Warning", "No key words selected")

  /** The title of the statistics dialog. */
  const StatisticsTitle: string := "Statistics"

  /**
    What one press of the button produces: the dialogs opened, in order, and
    the key of the `KeyError` that escaped, if one did.
  */
  datatype Report = Report(shown: seq<Dialog>, uncaught: Option<string>)

  /** The line `f"{word}: {count}"`: the word, a colon and a space, then the count in decimal. */
  function StatLine(word: string, count: nat): (line: string)
    ensures |line| > |word| + 2
    ensures line[..|word| + 2] == word + ": "
    ensures forall i :: |word| + 2 <= i < |line| ==> IsDigit(line[i])
    ensures line[|word| + 2] == '0' ==> |line| == |word| + 3
    ensures ParseDecimal(line[|word| + 2..]) == count
  {
    var digits := Decimal(count);
    ParseDecimalOfDecimal(count);
    assert (word + ": " + digits)[|word| + 2..] == digits;
    word + ": " + digits
  }

  /** Every selected word is a key of the index. */
  predicate AllIndexed(selected: seq<string>, index: map<string, int>) {
    forall w :: w in selected ==> w in index && index[w] >= 0
  }

  /** The statistics lines of the selected words, in selection order. */
  function StatLines(selected: seq<string>, index: map<string, int>): (lines: seq<string>)
    requires AllIndexed(selected, index)
    ensures |lines| == |selected|
    ensures forall i :: 0 <= i < |lines| ==> lines[i] == StatLine(selected[i], index[selected[i]] as nat)
  {
    if selected == [] then []
    else
      var last := selected[|selected| - 1];
      assert last in selected;
      StatLines(selected[..|selected| - 1], index) + [StatLine(last, index[last] as nat)]
  }

  /** The position of the first selected word that is not a key of the index, or `|selected|`. */
  function FirstMissing(selected: seq<string>, index: map<string, int>): (k: nat)
    ensures k <= |selected|
    ensures forall i :: 0 <= i < k ==> selected[i] in index
    ensures k < |selected| ==> selected[k] !in index
  {
    if selected == [] then 0
    else if selected[0] !in index then 0
    else 1 + FirstMissing(selected[1..], index)
  }

  /** The index built from the listed text files and the re-read keyword file. */
  function LoadedIndex(base: string, fs: FileSystem, read: string -> string, keyList: Option<string>): map<string, int> {
    IndexOf(TxtFilesUnder(base, fs, Letters), read, ReadKeyWords(keyList).keyWords)
  }

  /**
    What `show_statistics` produces, as a function of its inputs. An escaping
    `KeyError` names a selected word that the re-read keyword file lacks;
    without one, the last dialog is the warning or the statistics.
  */
  function StatisticsReport(selected: seq<string>, base: string, fs: FileSystem,
                            read: string -> string, keyList: Option<string>): (r: Report)
    ensures r.uncaught.Some? ==>
              r.uncaught.value in selected && r.uncaught.value !in ReadKeyWords(keyList).keyWords
    ensures r.uncaught.None? ==>
              && |r.shown| > 0
              && (r.shown[|r.shown| - 1] == NoSelectionWarning || r.shown[|r.shown| - 1].ShowInfo?)
  {
    if selected == [] then Report([NoSelectionWarning], None)
    else
      var index := LoadedIndex(base, fs, read, keyList);
      var k := FirstMissing(selected, index);
      if k < |selected| then Report(ReadKeyWords(keyList).shown, Some(selected[k]))
      else
        assert AllIndexed(selected, index) by {
          forall w | w in selected ensures w in index {
            var i :| 0 <= i < |selected| && selected[i] == w;
          }
        }
        Report(ReadKeyWords(keyList).shown + [ShowInfo(StatisticsTitle, Join("\n", StatLines(selected, index)))], None)
  }

  /**
    `show_statistics()`, the selection guard followed by the listing, the
    loading, the indexing and the loop that formats one line per selected word.
  */
  method ShowStatistics(selected: seq<string>, base: string, fs: FileSystem,
                        read: string -> string, keyList: Option<string>)
    returns (report: Report)
    ensures report == StatisticsReport(selected, base, fs, read, keyList)
  {
    if selected == [] {
      return Report([NoSelectionWarning], None);
    }
    var txtFiles := ListTxtFiles(base, fs);
    var loaded := ReadKeyWords(keyList);
    var index := CreateIndex(txtFiles, read, loaded.keyWords);
    assert index == IndexOf(txtFiles, read, loaded.keyWords);
    var statistics, k := FormatStatistics(selected, index);
    if k < |selected| {
      report := Report(loaded.shown, Some(selected[k]));
    } else {
      report := Report(loaded.shown + [ShowInfo(StatisticsTitle, Join("\n", statistics))], None);
    }
  }

  /**
    The loop of `show_statistics`: one line per selected word, in selection
    order, stopping at the first word that is not a key of the index, whose
    position is returned in `k` (`|selected|` when every word is a key).
  */
  method FormatStatistics(selected: seq<string>, index: map<string, int>)
    returns (statistics: seq<string>, k: nat)
    requires forall w :: w in index ==> index[w] >= 0
    ensures k == FirstMissing(selected, index)
    ensures k == |selected| ==> AllIndexed(selected, index) && statistics == StatLines(selected, index)
  {
    statistics := [];
    for i := 0 to |selected|
      invariant AllIndexed(selected[..i], index)
      invariant statistics == StatLines(selected[..i], index)
    {
      var word := selected[i];
      if word !in index {
        FirstMissingAt(selected, index, i);
        return statistics, i;
      }
      StatLinesSnoc(selected, index, i);
      statistics := statistics + [StatLine(word, index[word] as nat)];
    }
    assert selected[..|selected|] == selected;
    FirstMissingAt(selected, index, |selected|);
    k := |selected|;
  }

  //////////////////////////////////////////////////////////////////////////////
  // Helpers
  //////////////////////////////////////////////////////////////////////////////

  /** Formatting one more indexed word appends its line. */
  lemma StatLinesSnoc(selected: seq<string>, index: map<string, int>, i: nat)
    requires i < |selected|
    requires AllIndexed(selected[..i], index)
    requires selected[i] in index && index[selected[i]] >= 0
    ensures AllIndexed(selected[..i + 1], index)
    ensures StatLines(selected[..i + 1], index)
            == StatLines(selected[..i], index) + [StatLine(selected[i], index[selected[i]] as nat)]
  {
    assert selected[..i + 1] == selected[..i] + [selected[i]];
    assert selected[..i + 1][..i] == selected[..i];
  }

  /** `FirstMissing` is the first position whose word is not a key. */
  lemma {:induction false} FirstMissingAt(selected: seq<string>, index: map<string, int>, k: nat)
    requires k <= |selected|
    requires forall i :: 0 <= i < k ==> selected[i] in index
    requires k < |selected| ==> selected[k] !in index
    ensures FirstMissing(selected, index) == k
  {
    if k > 0 {
      FirstMissingAt(selected[1..], index, k - 1);
    }
  }

  //////////////////////////////////////////////////////////////////////////////
  // Properties of the statistics action
  //////////////////////////////////////////////////////////////////////////////

  /** With nothing selected, only the warning opens and nothing else happens. */
  lemma EmptySelectionOnlyWarns(base: string, fs: FileSystem, read: string -> string, keyList: Option<string>)
    ensures StatisticsReport([], base, fs, read, keyList) == Report([NoSelectionWarning], None)
  {
  }

  /**
    A selection is answered without an exception exactly when every selected
    word is a keyword of the re-read keyword file; otherwise the exception
    carries the first selected word that is not.
  */
  lemma KeyErrorIff(selected: seq<string>, base: string, fs: FileSystem,
                    read: string -> string, keyList: Option<string>)
    requires selected != []
    ensures var report := StatisticsReport(selected, base, fs, read, keyList);
      var keyWords := ReadKeyWords(keyList).keyWords;
      && (report.uncaught.None? <==> forall w :: w in selected ==> w in keyWords)
      && (report.uncaught.Some? ==>
            exists k :: 0 <= k < |selected| && report.uncaught.value == selected[k] && selected[k] !in keyWords
                        && forall i :: 0 <= i < k ==> selected[i] in keyWords)
  {
    var keyWords := ReadKeyWords(keyList).keyWords;
    var index := IndexOf(TxtFilesUnder(base, fs, Letters), read, keyWords);
    var k := FirstMissing(selected, index);
    if k == |selected| {
      forall w | w in selected ensures w in keyWords {
        var i :| 0 <= i < |selected| && selected[i] == w;
        assert selected[i] in index;
      }
    } else {
      assert selected[k] in selected;
    }
  }

  /**
    When every selected word is a keyword, the keyword file's dialogs are
    followed by one statistics dialog holding the formatted lines, and
    nothing escapes.
  */
  lemma AnsweredReport(selected: seq<string>, base: string, fs: FileSystem,
                       read: string -> string, keyList: Option<string>)
    requires selected != []
    requires forall w :: w in selected ==> w in ReadKeyWords(keyList).keyWords
    ensures AllIndexed(selected, LoadedIndex(base, fs, read, keyList))
    ensures StatisticsReport(selected, base, fs, read, keyList)
            == Report(ReadKeyWords(keyList).shown
                        + [ShowInfo(StatisticsTitle, Join("\n", StatLines(selected, LoadedIndex(base, fs, read, keyList))))],
                      None)
  {
    var keyWords := ReadKeyWords(keyList).keyWords;
    var index := LoadedIndex(base, fs, read, keyList);
    assert AllIndexed(selected, index);
    FirstMissingAt(selected, index, |selected|);
  }

  /**
    The statistics message splits back, at its line breaks, into one line per
    selected word in selection order: the word, `": "`, and its count, which is
    its multiplicity in the keyword list times its total number of
    occurrences across the listed files.
  */
  lemma StatisticsMessageLines(selected: seq<string>, base: string, fs: FileSystem,
                               read: string -> string, keyList: Option<string>)
    requires selected != []
    requires forall w :: w in selected ==> w in ReadKeyWords(keyList).keyWords
    ensures var report := StatisticsReport(selected, base, fs, read, keyList);
      var keyWords := ReadKeyWords(keyList).keyWords;
      var files := TxtFilesUnder(base, fs, Letters);
      var lines := Split(report.shown[|report.shown| - 1].message, '\n');
      && |lines| == |selected|
      && forall i :: 0 <= i < |lines| ==>
           lines[i] == StatLine(selected[i], Multiplicity(keyWords, selected[i]) * TotalCount(files, read, selected[i]))
  {
    var loaded := ReadKeyWords(keyList);
    var files := TxtFilesUnder(base, fs, Letters);
    var index := LoadedIndex(base, fs, read, keyList);
    AnsweredReport(selected, base, fs, read, keyList);
    forall w | w in selected ensures '\n' !in w {
      var k :| 0 <= k < |loaded.keyWords| && loaded.keyWords[k] == w;
      KeyWordsAreTrimmed(keyList, k);
    }
    MessageSplitsIntoLines(selected, index);
    var lines := StatLines(selected, index);
    forall i | 0 <= i < |lines|
      ensures lines[i] == StatLine(selected[i], Multiplicity(loaded.keyWords, selected[i]) * TotalCount(files, read, selected[i]))
    {
      assert selected[i] in selected;
    }
  }

  /** Joined by line breaks, single-line statistics lines split back into themselves. */
  lemma MessageSplitsIntoLines(selected: seq<string>, index: map<string, int>)
    requires selected != []
    requires AllIndexed(selected, index)
    requires forall w :: w in selected ==> '\n' !in w
    ensures Split(Join("\n", StatLines(selected, index)), '\n') == StatLines(selected, index)
  {
    var lines := StatLines(selected, index);
    forall i | 0 <= i < |lines| ensures '\n' !in lines[i] {
      assert selected[i] in selected;
      StatLineHasNoBreak(selected[i], index[selected[i]] as nat);
    }
    assert "\n" == ['\n'];
    SplitJoin(lines, '\n');
  }

  /** A statistics line for a single-line word is a single line. */
  lemma StatLineHasNoBreak(word: string, count: nat)
    requires '\n' !in word
    ensures '\n' !in StatLine(word, count)
  {
    var line := StatLine(word, count);
    forall i | 0 <= i < |line| ensures line[i] != '\n' {
      if i < |word| + 2 {
        assert line[i] == (word + ": ")[i];
      } else {
        assert IsDigit(line[i]);
      }
    }
  }

  /**
    Without a keyword file, a non-empty selection opens the error dialog and
    then fails on the first selected word: the index is empty.
  */
  lemma MissingKeyListFails(selected: seq<string>, base: string, fs: FileSystem, read: string -> string)
    requires selected != []
    ensures StatisticsReport(selected, base, fs, read, None) == Report([KeyListMissing], Some(selected[0]))
  {
    var index := IndexOf(TxtFilesUnder(base, fs, Letters), read, []);
    assert selected[0] !in index;
    FirstMissingAt(selected, index, 0);
  }
}
