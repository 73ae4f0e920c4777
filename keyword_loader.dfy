/**
  The keyword loader `read_key_words`: every line of `KeyList.txt`, stripped of
  surrounding whitespace, in file order with duplicates and blank lines kept;
  a missing file opens an error dialog and gives no keywords.

  The file is an input: `None` when it does not exist, otherwise its text as
  read in text mode (line endings already translated to `'\n'`).
*/
module KeywordLoader {
  import opened Wrappers
  import opened PyStr
  import opened Messages

  /** The dialog opened when `KeyList.txt` does not exist. */
  const KeyListMissing: Dialog := ShowError("Error", "KeyList.txt not found")

  /** The keywords loaded and the dialogs opened while loading them. */
  datatype Loaded = Loaded(keyWords: seq<string>, shown: seq<Dialog>)

  /** `[line.strip() for line in lines]`. */
  function StripAll(lines: seq<string>): (r: seq<string>)
    ensures |r| == |lines|
    ensures forall i :: 0 <= i < |r| ==> r[i] == Strip(lines[i])
  {
    if lines == [] then []
    else [Strip(lines[0])] + StripAll(lines[1..])
  }

  /** `read_key_words()` applied to the contents of `KeyList.txt`. */
  function ReadKeyWords(keyList: Option<string>): (r: Loaded)
    ensures keyList.None? ==> r.keyWords == [] && r.shown == [KeyListMissing]
    ensures keyList.Some? ==>
              && r.shown == []
              && |r.keyWords| == |ReadLines(keyList.value)|
              && forall i :: 0 <= i < |r.keyWords| ==> r.keyWords[i] == Strip(ReadLines(keyList.value)[i])
  {
    match keyList
    case None => Loaded([], [KeyListMissing])
    case Some(text) => Loaded(StripAll(ReadLines(text)), [])
  }

  /** A stripped line has no line break left in it: `'\n'` only ever ends a line. */
  lemma StrippedLineHasNoBreak(line: string)
    requires forall j :: 0 <= j < |line| - 1 ==> line[j] != '\n'
    ensures '\n' !in Strip(line)
  {
    var r := Strip(line);
    var i :| TrimmedAt(line, r, i);
    forall j | 0 <= j < |r| ensures r[j] != '\n' {
      if j < |r| - 1 {
        assert r[j] == line[i + j];
      } else {
        assert IsSpace('\n');
      }
    }
  }

  /**
    Every loaded keyword is a trimmed, single-line string: it contains no
    `'\n'` and neither starts nor ends with whitespace.
  */
  lemma KeyWordsAreTrimmed(keyList: Option<string>, k: nat)
    requires k < |ReadKeyWords(keyList).keyWords|
    ensures var w := ReadKeyWords(keyList).keyWords[k];
      && '\n' !in w
      && (w == [] || (!IsSpace(w[0]) && !IsSpace(w[|w| - 1])))
  {
    var lines := ReadLines(keyList.value);
    StrippedLineHasNoBreak(lines[k]);
  }

  lemma LinesOfCat()
    ensures ReadLines("cat") == ["cat"]
  {
    assert LineLength("cat") == 3 by {
      assert "cat"[1..] == "at" && "at"[1..] == "t" && "t"[1..] == "";
    }
    assert "cat"[..3] == "cat" && "cat"[3..] == "";
  }

  lemma LinesOfBreakCat()
    ensures ReadLines("\ncat") == ["\n", "cat"]
  {
    assert "\ncat"[..1] == "\n" && "\ncat"[1..] == "cat";
    LinesOfCat();
  }

  lemma LinesOfExample()
    ensures ReadLines("cat\n\ncat") == ["cat\n", "\n", "cat"]
  {
    var text := "cat\n\ncat";
    assert LineLength(text) == 4 by {
      assert text[1..] == "at\n\ncat" && text[2..] == "t\n\ncat" && text[3..] == "\n\ncat";
    }
    assert text[..4] == "cat\n" && text[4..] == "\ncat";
    LinesOfBreakCat();
  }

  lemma StripsOfExample()
    ensures Strip("cat\n") == "cat" && Strip("\n") == "" && Strip("cat") == "cat"
  {
    assert LeadingSpaces("cat\n") == 0;
    assert TrailingStart("cat\n") == 3 by {
      assert "cat\n"[..3] == "cat";
    }
    assert "cat\n"[0..3] == "cat";
    assert LeadingSpaces("\n") == 1 by {
      assert "\n"[1..] == "";
    }
    assert "cat"[0..3] == "cat";
  }

  /** One keyword per line, in order: duplicates and blank lines are kept. */
  lemma ReadKeyWordsExample()
    ensures ReadKeyWords(Some("cat\n\ncat")).keyWords == ["cat", "", "cat"]
    ensures ReadKeyWords(None) == Loaded([], [KeyListMissing])
  {
    LinesOfExample();
    StripsOfExample();
  }
}
