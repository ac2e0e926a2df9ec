/** From a pile of articles to the term-document matrix: first every stem is collected, then every article is read. */
module Driver {
  import opened Options
  import opened SortedStems
  import opened Vocabulary
  import opened ArticleParser
  import opened TermDocMatrix

  datatype RawArticle = RawArticle(title: string, tokens: seq<string>)

  // ---- Which articles are kept ----

  function Titles(raw: seq<RawArticle>): set<string> {
    set a | a in raw :: a.title
  }

  /** The tokens of the articles that are acceptable and the first with their title; an unacceptable one uses its title
      up. */
  function Kept(reading: Reading, raw: seq<RawArticle>): seq<seq<string>> {
    if raw == [] then []
    else
      var before, last := raw[..|raw| - 1], raw[|raw| - 1];
      if last.title !in Titles(before) && Acceptable(reading, last.tokens)
      then Kept(reading, before) + [last.tokens] else Kept(reading, before)
  }

  function StemsOf(reading: Reading, docs: seq<seq<string>>): set<string> {
    if docs == [] then {}
    else StemsOf(reading, docs[..|docs| - 1]) + ValidStems(reading, docs[|docs| - 1])
  }

  lemma {:induction false} KeptAcceptable(reading: Reading, raw: seq<RawArticle>)
    ensures forall c :: 0 <= c < |Kept(reading, raw)| ==> Acceptable(reading, Kept(reading, raw)[c])
  {
    if raw != [] {
      KeptAcceptable(reading, raw[..|raw| - 1]);
    }
  }

  /** The articles that are kept: acceptable, and no earlier article has their title. */
  ghost predicate Keeps(reading: Reading, raw: seq<RawArticle>, k: nat) {
    k < |raw| && Acceptable(reading, raw[k].tokens) && forall j :: 0 <= j < k ==> raw[j].title != raw[k].title
  }

  /** The tokens of some of the articles, chosen by their places. */
  function Chosen(raw: seq<RawArticle>, places: seq<nat>): seq<seq<string>>
    requires forall i :: 0 <= i < |places| ==> places[i] < |raw|
  {
    seq(|places|, i requires 0 <= i < |places| => raw[places[i]].tokens)
  }

  /** Kept are the tokens of just the acceptable articles that are first with their title, in order. */
  lemma {:induction false} KeptExactly(reading: Reading, raw: seq<RawArticle>) returns (places: seq<nat>)
    ensures forall i :: 0 <= i < |places| ==> places[i] < |raw|
    ensures Kept(reading, raw) == Chosen(raw, places)
    ensures forall k: nat :: k in places <==> Keeps(reading, raw, k)
    ensures forall i, j :: 0 <= i < j < |places| ==> places[i] < places[j]
  {
    if raw == [] {
      places := [];
    } else {
      var n := |raw| - 1;
      var before := KeptExactly(reading, raw[..n]);
      forall k: nat | k < n ensures Keeps(reading, raw[..n], k) <==> Keeps(reading, raw, k) {}
      TitleIsNew(raw, n);
      if Keeps(reading, raw, n) {
        places := before + [n];
        forall i | 0 <= i < |before| ensures before[i] < n {}
      } else {
        places := before;
      }
    }
  }

  lemma TitleIsNew(raw: seq<RawArticle>, n: nat)
    requires n < |raw|
    ensures raw[n].title !in Titles(raw[..n]) <==> forall j :: 0 <= j < n ==> raw[j].title != raw[n].title
  {
    forall j | 0 <= j < n ensures raw[j].title in Titles(raw[..n]) {
      assert raw[..n][j] in raw[..n];
    }
  }

  /** At most one article is kept for each title. */
  lemma {:induction false} KeptAtMostTitles(reading: Reading, raw: seq<RawArticle>)
    ensures |Kept(reading, raw)| <= |Titles(raw)|
  {
    if raw != [] {
      var n := |raw| - 1;
      KeptAtMostTitles(reading, raw[..n]);
      TitlesGrow(raw, n);
    }
  }

  lemma TitlesGrow(raw: seq<RawArticle>, n: nat)
    requires |raw| == n + 1
    ensures |Titles(raw)| == |Titles(raw[..n])| + if raw[n].title in Titles(raw[..n]) then 0 else 1
  {
    var before, last := Titles(raw[..n]), raw[n].title;
    forall title ensures title in Titles(raw) <==> title in before + {last} {
      if a :| a in raw && a.title == title {
        assert a in raw[..n] || a == raw[n];
      }
    }
    assert Titles(raw) == before + {last};
    if last in before {
      assert before + {last} == before;
    }
  }

  /** An article has a known word with this stem. */
  ghost predicate Brings(reading: Reading, doc: seq<string>, stem: string) {
    exists token :: token in doc && token in reading.words && reading.stem(reading.lower(token)) == stem
  }

  ghost predicate Brought(reading: Reading, docs: seq<seq<string>>, stem: string) {
    exists c :: 0 <= c < |docs| && Brings(reading, docs[c], stem)
  }

  /** The stems collected are those of the known words of the kept articles. */
  lemma {:induction false} StemsExactly(reading: Reading, docs: seq<seq<string>>, stem: string)
    ensures stem in StemsOf(reading, docs) <==> Brought(reading, docs, stem)
  {
    if docs != [] {
      var n := |docs| - 1;
      StemsExactly(reading, docs[..n], stem);
      ValidStemsExactly(reading, docs[n], stem);
      BringsOneMore(reading, docs, n, stem);
    }
  }

  lemma BringsOneMore(reading: Reading, docs: seq<seq<string>>, n: nat, stem: string)
    requires |docs| == n + 1
    ensures Brought(reading, docs, stem) <==> Brought(reading, docs[..n], stem) || Brings(reading, docs[n], stem)
  {
    if c :| 0 <= c < n && Brings(reading, docs[..n][c], stem) {
      assert Brings(reading, docs[c], stem);
    }
    if c :| 0 <= c < |docs| && Brings(reading, docs[c], stem) {
      if c < n {
        assert docs[..n][c] == docs[c];
      }
    }
  }

  lemma ValidStemsExactly(reading: Reading, doc: seq<string>, stem: string)
    ensures stem in ValidStems(reading, doc) <==> Brings(reading, doc, stem)
  {
    assert forall k :: 0 <= k < |doc| ==> doc[k] in doc;
  }

  // ---- How many articles a stem is in ----

  function DocCount(reading: Reading, stems: seq<string>, docs: seq<seq<string>>, id: nat): nat {
    if docs == [] then 0
    else
      DocCount(reading, stems, docs[..|docs| - 1], id)
        + if id in IdsOf(reading, stems, docs[|docs| - 1]) then 1 else 0
  }

  ghost predicate Mentions(reading: Reading, stems: seq<string>, doc: seq<string>, id: nat) {
    exists token :: token in doc && TokenId(reading, stems, token) == Some(id)
  }

  /** The articles with an accepted token that stems to the id's stem. */
  ghost function DocsWith(reading: Reading, stems: seq<string>, docs: seq<seq<string>>, id: nat): set<nat> {
    set c: nat | c < |docs| && Mentions(reading, stems, docs[c], id)
  }

  lemma MentionsIs(reading: Reading, stems: seq<string>, doc: seq<string>, id: nat)
    ensures Mentions(reading, stems, doc, id) <==> id in IdsOf(reading, stems, doc)
  {
    IdsAre(reading, stems, doc, id);
    assert forall k :: 0 <= k < |doc| ==> doc[k] in doc;
  }

  lemma {:induction false} DocCountIs(reading: Reading, stems: seq<string>, docs: seq<seq<string>>, id: nat)
    ensures DocCount(reading, stems, docs, id) == |DocsWith(reading, stems, docs, id)|
  {
    if docs != [] {
      var n := |docs| - 1;
      DocCountIs(reading, stems, docs[..n], id);
      MentionsIs(reading, stems, docs[n], id);
      var before := DocsWith(reading, stems, docs[..n], id);
      assert DocsWith(reading, stems, docs, id) == before + if Mentions(reading, stems, docs[n], id) then {n} else {};
    }
  }

  ghost predicate CountsDocs(freqs: seq<nat>, reading: Reading, stems: seq<string>, docs: seq<seq<string>>) {
    forall id :: 0 <= id < |freqs| ==> freqs[id] == DocCount(reading, stems, docs, id)
  }

  lemma CountsOneMore(freqs: seq<nat>, reading: Reading, stems: seq<string>, docs: seq<seq<string>>, i: nat)
    requires i < |docs| && CountsDocs(freqs, reading, stems, docs[..i])
    ensures CountsDocs(Counted(freqs, IdsOf(reading, stems, docs[i])), reading, stems, docs[..i + 1])
  {
    assert docs[..i + 1][..i] == docs[..i];
  }

  // ---- The matrix the articles make ----

  ghost function Entry(reading: Reading, stems: seq<string>, tokens: seq<string>, id: nat): real
    requires tokens != []
  {
    Weight(IdsOf(reading, stems, tokens), |tokens|, id)
  }

  ghost function NonZeroColumns(reading: Reading, stems: seq<string>, docs: seq<seq<string>>, id: nat): set<nat>
    requires forall c :: 0 <= c < |docs| ==> docs[c] != []
  {
    set c: nat | c < |docs| && Entry(reading, stems, docs[c], id) != 0.0
  }

  /** A row is non-zero exactly at the articles its stem is in. */
  lemma RowSupport(reading: Reading, stems: seq<string>, docs: seq<seq<string>>, id: nat)
    requires forall c :: 0 <= c < |docs| ==> docs[c] != []
    ensures NonZeroColumns(reading, stems, docs, id) == DocsWith(reading, stems, docs, id)
    ensures |NonZeroColumns(reading, stems, docs, id)| == DocCount(reading, stems, docs, id)
  {
    forall c: nat | c < |docs|
      ensures Entry(reading, stems, docs[c], id) != 0.0 <==> Mentions(reading, stems, docs[c], id)
    {
      WeightIsZero(IdsOf(reading, stems, docs[c]), |docs[c]|, id);
      MentionsIs(reading, stems, docs[c], id);
    }
    DocCountIs(reading, stems, docs, id);
  }

  /** What the driver returns for the articles it keeps: the stems in order, the stem of each row, and the entries. */
  ghost predicate IsMatrixOf(reading: Reading, docs: seq<seq<string>>, stems: seq<string>,
                             rows: seq<nat>, mat: seq<seq<real>>)
  {
    && (forall c :: 0 <= c < |docs| ==> docs[c] != [])
    && Increasing(stems) && Elements(stems) == StemsOf(reading, docs)
    && (forall id: nat :: id in rows <==> id < |stems| && MIN_FREQ < DocCount(reading, stems, docs, id) < MAX_FREQ)
    && (forall i, j :: 0 <= i < j < |rows| ==> rows[i] < rows[j])
    && |mat| == |rows|
    && forall r :: 0 <= r < |rows| ==>
         |mat[r]| == |docs| && forall c :: 0 <= c < |docs| ==> mat[r][c] == Entry(reading, stems, docs[c], rows[r])
  }

  /** Every row has between 4 and 49 non-zero columns: as many as there are articles with its stem. */
  lemma RowsOfMatrix(reading: Reading, docs: seq<seq<string>>, stems: seq<string>,
                     rows: seq<nat>, mat: seq<seq<real>>, r: nat)
    requires IsMatrixOf(reading, docs, stems, rows, mat) && r < |rows|
    ensures |mat[r]| == |docs| && rows[r] < |stems|
    ensures var columns := set c: nat | c < |docs| && mat[r][c] != 0.0;
            columns == DocsWith(reading, stems, docs, rows[r]) && 4 <= |columns| <= 49
  {
    RowSupport(reading, stems, docs, rows[r]);
    assert rows[r] in rows;
    assert (set c: nat | c < |docs| && mat[r][c] != 0.0) == NonZeroColumns(reading, stems, docs, rows[r]);
  }

  // ---- Rows and entries in terms of tokens ----

  /** The places of the tokens of an article that stand for an id. */
  ghost function TokensFor(reading: Reading, stems: seq<string>, doc: seq<string>, id: nat): set<nat> {
    set k: nat | k < |doc| && StandsFor(reading, stems, doc[k], id)
  }

  lemma {:induction false} TokensAreIds(reading: Reading, stems: seq<string>, doc: seq<string>, id: nat)
    requires Increasing(stems)
    ensures |TokensFor(reading, stems, doc, id)| == |PlacesOf(IdsOf(reading, stems, doc), id)|
  {
    if doc != [] {
      var n := |doc| - 1;
      TokensAreIds(reading, stems, doc[..n], id);
      StandsForIs(reading, stems, doc[n], id);
      OneMoreToken(reading, stems, doc, n, id);
      var ids, last := IdsOf(reading, stems, doc[..n]), TokenId(reading, stems, doc[n]);
      if last.Some? {
        OneMorePlace(ids, last.value, id);
      }
    }
  }

  lemma OneMoreToken(reading: Reading, stems: seq<string>, doc: seq<string>, n: nat, id: nat)
    requires |doc| == n + 1
    ensures |TokensFor(reading, stems, doc, id)|
         == |TokensFor(reading, stems, doc[..n], id)| + if StandsFor(reading, stems, doc[n], id) then 1 else 0
  {
    assert TokensFor(reading, stems, doc, id)
        == TokensFor(reading, stems, doc[..n], id) + if StandsFor(reading, stems, doc[n], id) then {n} else {};
  }

  lemma OneMorePlace(ids: seq<nat>, last: nat, id: nat)
    ensures |PlacesOf(ids + [last], id)| == |PlacesOf(ids, id)| + if last == id then 1 else 0
  {
    assert PlacesOf(ids + [last], id) == PlacesOf(ids, id) + if last == id then {|ids|} else {};
  }

  lemma EntryIs(reading: Reading, stems: seq<string>, doc: seq<string>, id: nat)
    requires Increasing(stems) && doc != []
    ensures Entry(reading, stems, doc, id) == |TokensFor(reading, stems, doc, id)| as real / |doc| as real
  {
    TokensAreIds(reading, stems, doc, id);
    WeightIs(IdsOf(reading, stems, doc), |doc|, id);
  }

  /** Each entry is the share of the article's tokens that stand for the row's stem. */
  lemma EntriesExactly(reading: Reading, docs: seq<seq<string>>, stems: seq<string>,
                       rows: seq<nat>, mat: seq<seq<real>>, r: nat, c: nat)
    requires IsMatrixOf(reading, docs, stems, rows, mat) && r < |rows| && c < |docs|
    ensures |mat[r]| == |docs| && rows[r] < |stems|
    ensures mat[r][c] == |TokensFor(reading, stems, docs[c], rows[r])| as real / |docs[c]| as real
  {
    assert rows[r] in rows;
    EntryIs(reading, stems, docs[c], rows[r]);
  }

  /** A stem has a row, and one row, if and only if 4 to 49 of the articles have a token that stands for it. */
  lemma RowsExactly(reading: Reading, docs: seq<seq<string>>, stems: seq<string>,
                    rows: seq<nat>, mat: seq<seq<real>>, id: nat)
    requires IsMatrixOf(reading, docs, stems, rows, mat)
    ensures id in rows
       <==> id < |stems| && 4 <= |set c: nat | c < |docs| && TokensFor(reading, stems, docs[c], id) != {}| <= 49
    ensures forall i, j :: 0 <= i < j < |rows| ==> rows[i] < rows[j]
  {
    DocCountIs(reading, stems, docs, id);
    forall c: nat | c < |docs|
      ensures TokensFor(reading, stems, docs[c], id) != {} <==> Mentions(reading, stems, docs[c], id)
    {
      MentionsExactly(reading, stems, docs[c], id);
    }
    assert (set c: nat | c < |docs| && TokensFor(reading, stems, docs[c], id) != {})
        == DocsWith(reading, stems, docs, id);
  }

  lemma MentionsExactly(reading: Reading, stems: seq<string>, doc: seq<string>, id: nat)
    requires Increasing(stems)
    ensures Mentions(reading, stems, doc, id) <==> TokensFor(reading, stems, doc, id) != {}
  {
    if token :| token in doc && TokenId(reading, stems, token) == Some(id) {
      var k :| 0 <= k < |doc| && doc[k] == token;
      StandsForIs(reading, stems, token, id);
      assert k in TokensFor(reading, stems, doc, id);
    }
    if k :| k in TokensFor(reading, stems, doc, id) {
      StandsForIs(reading, stems, doc[k], id);
      assert doc[k] in doc;
    }
  }

  function Sum(column: seq<real>): real {
    if column == [] then 0.0 else Sum(column[..|column| - 1]) + column[|column| - 1]
  }

  function Column(mat: seq<seq<real>>, c: nat): seq<real>
    requires forall r :: 0 <= r < |mat| ==> c < |mat[r]|
  {
    seq(|mat|, r requires 0 <= r < |mat| => mat[r][c])
  }

  lemma {:induction false} SumIsColumnSum(column: seq<real>, ids: seq<nat>, tokensNo: nat, rows: seq<nat>)
    requires tokensNo != 0 && |column| == |rows|
    requires forall r :: 0 <= r < |rows| ==> column[r] == Weight(ids, tokensNo, rows[r])
    ensures Sum(column) == ColumnSum(ids, tokensNo, rows)
  {
    if rows != [] {
      SumIsColumnSum(column[..|column| - 1], ids, tokensNo, rows[..|rows| - 1]);
    }
  }

  /** Every column adds up to at most one. */
  lemma ColumnsOfMatrix(reading: Reading, docs: seq<seq<string>>, stems: seq<string>,
                        rows: seq<nat>, mat: seq<seq<real>>, c: nat)
    requires IsMatrixOf(reading, docs, stems, rows, mat) && c < |docs|
    ensures 0.0 <= Sum(Column(mat, c)) <= 1.0
  {
    var ids := IdsOf(reading, stems, docs[c]);
    SumIsColumnSum(Column(mat, c), ids, |docs[c]|, rows);
    ColumnSumBounded(ids, |docs[c]|, rows);
  }

  // ---- The driver ----

  /** Keeps the acceptable articles with a new title and collects their stems. */
  method Collect(raw: seq<RawArticle>, parser: ArticleParser, vocabulary: Vocabulary) returns (docs: seq<seq<string>>)
    requires parser.vocabulary == vocabulary && vocabulary.Valid() && vocabulary.Consistent() && vocabulary.stems == []
    modifies vocabulary`stems
    ensures vocabulary.Valid() && vocabulary.Consistent()
    ensures docs == Kept(parser.reading, raw)
    ensures Elements(vocabulary.stems) == StemsOf(parser.reading, docs)
  {
    var titles: set<string> := {};
    docs := [];
    for i := 0 to |raw|
      invariant vocabulary.Valid() && vocabulary.Consistent()
      invariant titles == Titles(raw[..i])
      invariant docs == Kept(parser.reading, raw[..i])
      invariant Elements(vocabulary.stems) == StemsOf(parser.reading, docs)
    {
      var article := raw[i];
      assert raw[..i + 1] == raw[..i] + [article];
      assert Titles(raw[..i + 1]) == Titles(raw[..i]) + {article.title};
      assert raw[..i + 1][..i] == raw[..i];
      if article.title !in titles {
        titles := titles + {article.title};
        var valid, stems := parser.TokenizeValidate(article.tokens);
        if valid {
          vocabulary.AddStems(stems);
          assert (docs + [article.tokens])[..|docs|] == docs;
          docs := docs + [article.tokens];
        }
      }
    }
    assert raw[..|raw|] == raw;
  }

  ghost predicate AreReadings(articles: seq<ProcessedArticle>, reading: Reading, stems: seq<string>,
                              docs: seq<seq<string>>)
  {
    && |articles| == |docs|
    && forall c :: 0 <= c < |docs| ==>
         articles[c].stemIds == IdsOf(reading, stems, docs[c]) && articles[c].tokensNo == |docs[c]|
  }

  /** Reads every kept article. */
  method ReadAll(docs: seq<seq<string>>, parser: ArticleParser, vocabulary: Vocabulary)
    returns (articles: seq<ProcessedArticle>)
    requires parser.vocabulary == vocabulary && parser.Valid()
    requires forall id :: 0 <= id < MAX_STEMS_NO ==> vocabulary.stemsFreq[id] == 0
    modifies vocabulary`freqStemsNo, vocabulary`stemidTokens, vocabulary.stemsFreq
    ensures parser.Valid()
    ensures AreReadings(articles, parser.reading, vocabulary.stems, docs)
    ensures CountsDocs(vocabulary.stemsFreq[..], parser.reading, vocabulary.stems, docs)
  {
    articles := [];
    for i := 0 to |docs|
      invariant parser.Valid()
      invariant AreReadings(articles, parser.reading, vocabulary.stems, docs[..i])
      invariant CountsDocs(vocabulary.stemsFreq[..], parser.reading, vocabulary.stems, docs[..i])
    {
      CountsOneMore(vocabulary.stemsFreq[..], parser.reading, vocabulary.stems, docs, i);
      var article, _ := parser.ProcessTokens(docs[i], false);
      articles := articles + [article];
    }
    assert docs[..|docs|] == docs;
  }

  /** Collects the stems, reads the articles and builds the matrix. */
  method ComputeTermDocMat(raw: seq<RawArticle>, reading: Reading)
    returns (stems: seq<string>, rows: seq<nat>, mat: array2<real>)
    requires Kept(reading, raw) != []
    requires |StemsOf(reading, Kept(reading, raw))| < MAX_STEMS_NO
    ensures mat.Length0 == |rows| && mat.Length1 == |Kept(reading, raw)|
    ensures IsMatrixOf(reading, Kept(reading, raw), stems, rows, Entries(mat))
  {
    var vocabulary := new Vocabulary(reading.words, reading.stopWords);
    var parser := new ArticleParser(vocabulary, reading);
    var docs := Collect(raw, parser, vocabulary);
    ElementsCount(vocabulary.stems);
    KeptAcceptable(reading, raw);
    var articles := ReadAll(docs, parser, vocabulary);
    rows, mat := Build(reading, docs, articles, vocabulary);
    stems := vocabulary.stems;
  }

  /** Builds the matrix of articles that have all been read. */
  method Build(reading: Reading, docs: seq<seq<string>>, articles: seq<ProcessedArticle>, vocabulary: Vocabulary)
    returns (rows: seq<nat>, mat: array2<real>)
    requires vocabulary.Valid() && vocabulary.Consistent() && |vocabulary.stems| < MAX_STEMS_NO
    requires Elements(vocabulary.stems) == StemsOf(reading, docs)
    requires |docs| > 0 && forall c :: 0 <= c < |docs| ==> docs[c] != []
    requires AreReadings(articles, reading, vocabulary.stems, docs)
    requires CountsDocs(vocabulary.stemsFreq[..], reading, vocabulary.stems, docs)
    ensures mat.Length0 == |rows| && mat.Length1 == |docs|
    ensures IsMatrixOf(reading, docs, vocabulary.stems, rows, Entries(mat))
  {
    var lsa := new Lsa(vocabulary);
    forall c, i | 0 <= c < |articles| && 0 <= i < |articles[c].stemIds|
      ensures articles[c].stemIds[i] < |vocabulary.stems|
    {
      IdsAre(reading, vocabulary.stems, docs[c], articles[c].stemIds[i]);
    }
    lsa.BuildTermDocMatrix(articles, MIN_FREQ);
    rows, mat := lsa.termsMatToVocab, lsa.termDocMat;
    MatrixMade(reading, docs, vocabulary.stems, vocabulary.stemsFreq[..], rows, Entries(mat));
  }

  lemma MatrixMade(reading: Reading, docs: seq<seq<string>>, stems: seq<string>, freqs: seq<nat>,
                   rows: seq<nat>, mat: seq<seq<real>>)
    requires forall c :: 0 <= c < |docs| ==> docs[c] != []
    requires Increasing(stems) && Elements(stems) == StemsOf(reading, docs)
    requires |stems| <= |freqs|
    requires CountsDocs(freqs, reading, stems, docs)
    requires rows == Selected(freqs, |stems|, MIN_FREQ) && |mat| == |rows|
    requires forall r :: 0 <= r < |rows| ==>
      |mat[r]| == |docs| && forall c :: 0 <= c < |docs| ==> mat[r][c] == Entry(reading, stems, docs[c], rows[r])
    ensures IsMatrixOf(reading, docs, stems, rows, mat)
  {
    SelectedAre(freqs, |stems|, MIN_FREQ);
  }

  /** A matrix, row by row. */
  function Entries(mat: array2<real>): (rows: seq<seq<real>>)
    reads mat
    ensures |rows| == mat.Length0
    ensures forall r :: 0 <= r < |rows| ==>
      |rows[r]| == mat.Length1 && forall c :: 0 <= c < |rows[r]| ==> rows[r][c] == mat[r, c]
  {
    seq(mat.Length0, r requires 0 <= r < mat.Length0 reads mat =>
      seq(mat.Length1, c requires 0 <= c < mat.Length1 reads mat => mat[r, c]))
  }
}
