/**
  The indexer `create_index(files, key_words)`: a map from every keyword to
  the number of its occurrences (Python's `str.count`) summed over the files.
  The map is first filled with 0 for every keyword; then, for each file in
  turn and each entry of the keyword list in turn, the entry's count in that
  file is added to its slot. A keyword listed twice shares one slot and is
  added twice, so each slot ends up holding the keyword's multiplicity in the
  list times its total count.

  Reading a file is an input: `read(path)` is the decoded text of `path`,
  after text-mode newline translation (`\r\n` and `\r` read as `\n`).
*/
module Indexer {
  import opened PyStr

  /** The number of occurrences of `w` summed over the files, read in order. */
  function TotalCount(files: seq<string>, read: string -> string, w: string): nat {
    if files == [] then 0
    else TotalCount(files[..|files| - 1], read, w) + Count(read(files[|files| - 1]), w)
  }

  /** How many entries of the keyword list are `w`. */
  function Multiplicity(keyWords: seq<string>, w: string): nat {
    multiset(keyWords)[w]
  }

  /**
    What `create_index` returns, in closed form: one slot per distinct
    keyword, holding a count, never negative.
  */
  function IndexOf(files: seq<string>, read: string -> string, keyWords: seq<string>): (index: map<string, int>)
    ensures index.Keys == set w | w in keyWords
    ensures forall w :: w in index ==> index[w] >= 0
  {
    map w | w in keyWords :: Multiplicity(keyWords, w) * TotalCount(files, read, w)
  }

  /**
    `create_index(files, key_words)`: the keys are exactly the distinct
    keywords, and each one's count is its multiplicity in the list times its
    total number of occurrences across the files.
  */
  method CreateIndex(files: seq<string>, read: string -> string, keyWords: seq<string>)
    returns (index: map<string, int>)
    ensures index.Keys == set w | w in keyWords
    ensures forall w :: w in index ==> index[w] == Multiplicity(keyWords, w) * TotalCount(files, read, w)
    ensures forall w :: w in index ==> index[w] >= 0
  {
    index := map w | w in keyWords :: 0;
    for i := 0 to |files|
      invariant index.Keys == set w | w in keyWords
      invariant forall w :: w in index ==> index[w] == Multiplicity(keyWords, w) * TotalCount(files[..i], read, w)
    {
      var content := read(files[i]);
      var before := index;
      index := AddFileCounts(before, content, keyWords);
      forall w | w in index
        ensures index[w] == Multiplicity(keyWords, w) * TotalCount(files[..i + 1], read, w)
      {
        TotalCountSnoc(files, read, w, i);
        Distribute(Multiplicity(keyWords, w), TotalCount(files[..i], read, w), Count(content, w));
      }
    }
    assert files[..|files|] == files;
    forall w | w in index ensures index[w] >= 0 {
      MonotoneProduct(Multiplicity(keyWords, w), 0, TotalCount(files, read, w));
    }
  }

  /**
    The inner loop of `create_index`: for each entry of the keyword list in
    turn, add the entry's count in `content` to its slot. A slot is bumped
    once per entry naming it.
  */
  method AddFileCounts(index0: map<string, int>, content: string, keyWords: seq<string>)
    returns (index: map<string, int>)
    requires forall w :: w in keyWords ==> w in index0
    ensures index.Keys == index0.Keys
    ensures forall w :: w in index ==> index[w] == index0[w] + Multiplicity(keyWords, w) * Count(content, w)
  {
    index := index0;
    for j := 0 to |keyWords|
      invariant index.Keys == index0.Keys
      invariant forall w :: w in index ==> index[w] == index0[w] + Multiplicity(keyWords[..j], w) * Count(content, w)
    {
      var word := keyWords[j];
      assert keyWords[..j + 1] == keyWords[..j] + [word];
      forall w | w in index
        ensures Multiplicity(keyWords[..j + 1], w) * Count(content, w)
                == Multiplicity(keyWords[..j], w) * Count(content, w) + (if w == word then Count(content, w) else 0)
      {
        MultiplicitySnoc(keyWords[..j], word, w, Count(content, w));
      }
      index := index[word := index[word] + Count(content, word)];
    }
    assert keyWords[..|keyWords|] == keyWords;
  }

  //////////////////////////////////////////////////////////////////////////////
  // Arithmetic and bookkeeping steps of the loop
  //////////////////////////////////////////////////////////////////////////////

  lemma Distribute(m: nat, a: nat, b: nat)
    ensures m * a + m * b == m * (a + b)
  {
  }

  lemma MonotoneProduct(m: nat, a: nat, b: nat)
    requires a <= b
    ensures m * a <= m * b
  {
    Distribute(m, a, b - a);
  }

  lemma MultiplicitySnoc(ks: seq<string>, k: string, w: string, c: nat)
    ensures Multiplicity(ks + [k], w) * c == Multiplicity(ks, w) * c + (if w == k then c else 0)
  {
    assert multiset(ks + [k]) == multiset(ks) + multiset{k};
    if w == k {
      assert Multiplicity(ks + [k], w) == Multiplicity(ks, w) + 1;
    } else {
      assert Multiplicity(ks + [k], w) == Multiplicity(ks, w);
    }
  }

  /** Reading one more file adds its count. */
  lemma TotalCountSnoc(files: seq<string>, read: string -> string, w: string, i: nat)
    requires i < |files|
    ensures TotalCount(files[..i + 1], read, w) == TotalCount(files[..i], read, w) + Count(read(files[i]), w)
  {
    assert files[..i + 1][..i] == files[..i];
  }

  //////////////////////////////////////////////////////////////////////////////
  // Properties of the index
  //////////////////////////////////////////////////////////////////////////////

  /** With no files every keyword maps to 0: the slots are initialised, and nothing is added. */
  lemma NoFilesAllZero(read: string -> string, keyWords: seq<string>, w: string)
    requires w in keyWords
    ensures w in IndexOf([], read, keyWords) && IndexOf([], read, keyWords)[w] == 0
  {
  }

  /** Counts never decrease as more files are read. */
  lemma {:induction false} CountsGrow(files: seq<string>, read: string -> string, w: string, i: nat, j: nat)
    requires i <= j <= |files|
    ensures TotalCount(files[..i], read, w) <= TotalCount(files[..j], read, w)
    decreases j - i
  {
    if i < j {
      CountsGrow(files, read, w, i, j - 1);
      TotalCountSnoc(files, read, w, j - 1);
    }
  }

  /** After reading a prefix of the files, no slot holds less than before. */
  lemma IndexGrows(files: seq<string>, read: string -> string, keyWords: seq<string>, i: nat, j: nat, w: string)
    requires i <= j <= |files|
    requires w in keyWords
    ensures 0 <= IndexOf(files[..i], read, keyWords)[w] <= IndexOf(files[..j], read, keyWords)[w]
  {
    CountsGrow(files, read, w, i, j);
    MonotoneProduct(Multiplicity(keyWords, w), TotalCount(files[..i], read, w), TotalCount(files[..j], read, w));
  }

  /** A keyword that is listed once appears once in the list's multiset. */
  lemma {:induction false} DistinctMultiplicity(keyWords: seq<string>, w: string)
    requires forall a, b :: 0 <= a < b < |keyWords| ==> keyWords[a] != keyWords[b]
    requires w in keyWords
    ensures Multiplicity(keyWords, w) == 1
  {
    var last := keyWords[|keyWords| - 1];
    var init := keyWords[..|keyWords| - 1];
    assert keyWords == init + [last];
    assert multiset(keyWords) == multiset(init) + multiset{last};
    if w == last {
      assert w !in init by {
        forall a | 0 <= a < |init| ensures init[a] != w {
          assert init[a] == keyWords[a];
        }
      }
      assert multiset(init)[w] == 0;
    } else {
      assert w in init;
      DistinctMultiplicity(init, w);
    }
  }

  /** With no duplicate keywords, each count is the plain sum of counts over the files. */
  lemma DistinctKeywordsPlainSum(files: seq<string>, read: string -> string, keyWords: seq<string>, w: string)
    requires forall a, b :: 0 <= a < b < |keyWords| ==> keyWords[a] != keyWords[b]
    requires w in keyWords
    ensures IndexOf(files, read, keyWords)[w] == TotalCount(files, read, w)
  {
    DistinctMultiplicity(keyWords, w);
  }

  /** Two files, "cat dog cat" and "dog", and the keywords cat and dog give {cat: 2, dog: 2}. */
  lemma TwoFilesExample()
    ensures IndexOf(["a.txt", "b.txt"], TwoFiles(), ["cat", "dog"]) == map["cat" := 2, "dog" := 2]
  {
    TwoFilesTotals();
    assert Multiplicity(["cat", "dog"], "cat") == 1 by {
      assert multiset(["cat", "dog"]) == multiset{"cat"} + multiset{"dog"};
    }
    assert Multiplicity(["cat", "dog"], "dog") == 1 by {
      assert multiset(["cat", "dog"]) == multiset{"cat"} + multiset{"dog"};
    }
  }

  /** The file contents of the two-file example. */
  function TwoFiles(): string -> string {
    (p: string) => if p == "a.txt" then "cat dog cat" else "dog"
  }

  lemma TwoFilesTotals()
    ensures TotalCount(["a.txt", "b.txt"], TwoFiles(), "cat") == 2
    ensures TotalCount(["a.txt", "b.txt"], TwoFiles(), "dog") == 2
  {
    var files: seq<string> := ["a.txt", "b.txt"];
    assert files[..1] == ["a.txt"] && files[..1][..0] == [];
    assert TwoFiles()("a.txt") == "cat dog cat";
    assert TwoFiles()("b.txt") == "dog";
    CountCatDogCat();
    CountDog();
  }

  /** A keyword listed twice is counted twice: "catcat" with keywords cat, cat gives {cat: 4}. */
  lemma DuplicateKeywordExample()
    ensures IndexOf(["a.txt"], OneFile(), ["cat", "cat"]) == map["cat" := 4]
  {
    CountExamples();
    assert ["a.txt"][..0] == [];
    assert TotalCount(["a.txt"], OneFile(), "cat") == 2;
    assert multiset(["cat", "cat"]) == multiset{"cat", "cat"};
    assert Multiplicity(["cat", "cat"], "cat") == 2;
  }

  /** The file contents of the duplicate-keyword example. */
  function OneFile(): string -> string {
    (p: string) => "catcat"
  }

  /** A position whose first character differs from the keyword's is skipped. */
  lemma CountSkip(s: string, w: string)
    requires 0 < |w| <= |s| && s[0] != w[0]
    ensures Count(s, w) == Count(s[1..], w)
  {
    assert s[..|w|][0] == s[0];
  }

  /** A keyword longer than the rest of the text is not found. */
  lemma CountShort(s: string, w: string)
    requires 0 < |w| && |s| < |w|
    ensures Count(s, w) == 0
  {
  }

  /** A match at the start is counted and skipped over. */
  lemma CountMatch(s: string, w: string)
    requires 0 < |w| <= |s| && s[..|w|] == w
    ensures Count(s, w) == 1 + Count(s[|w|..], w)
  {
  }

  lemma CountCatDogCat()
    ensures Count("cat dog cat", "cat") == 2 && Count("cat dog cat", "dog") == 1
  {
    CountMatch("cat dog cat", "cat");
    assert "cat dog cat"[3..] == " dog cat";
    CountSkip(" dog cat", "cat");
    assert " dog cat"[1..] == "dog cat";
    CountSkip("dog cat", "cat");
    assert "dog cat"[1..] == "og cat";
    CountSkip("og cat", "cat");
    assert "og cat"[1..] == "g cat";
    CountSkip("g cat", "cat");
    assert "g cat"[1..] == " cat";
    CountSkip(" cat", "cat");
    assert " cat"[1..] == "cat";
    CountMatch("cat", "cat");
    assert "cat"[3..] == "";
    CountShort("", "cat");

    CountSkip("cat dog cat", "dog");
    assert "cat dog cat"[1..] == "at dog cat";
    CountSkip("at dog cat", "dog");
    assert "at dog cat"[1..] == "t dog cat";
    CountSkip("t dog cat", "dog");
    assert "t dog cat"[1..] == " dog cat";
    CountSkip(" dog cat", "dog");
    CountMatch("dog cat", "dog");
    assert "dog cat"[3..] == " cat";
    CountSkip(" cat", "dog");
    CountSkip("cat", "dog");
    assert "cat"[1..] == "at";
    CountShort("at", "dog");
  }

  lemma CountDog()
    ensures Count("dog", "cat") == 0 && Count("dog", "dog") == 1
  {
    CountSkip("dog", "cat");
    assert "dog"[1..] == "og";
    CountShort("og", "cat");
    CountMatch("dog", "dog");
    assert "dog"[3..] == "";
    CountShort("", "dog");
  }
}
