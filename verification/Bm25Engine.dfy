/**
 The BM25 engine object: documents are added, removed and updated in place, and a query is scored
 by walking posting lists.
 */
module Bm25Engines {
  import opened Sequences
  import opened Ranking
  import opened Results
  import opened TextProcessing
  import opened Bm25Formula
  import opened Bm25Index

  /** One hit of a full-text query. */
  datatype Hit = Hit(id: DocId, score: real, matched: seq<string>)

  // ------------------------------------------------------- the direct formula

  function Product(x: real, y: real): (r: real)
    ensures x >= 0.0 && y >= 0.0 ==> r >= 0.0
  {
    x * y
  }

  /** Zero stands for what a division by zero yields. */
  function Ratio(x: real, y: real): (r: real)
    ensures x >= 0.0 && y >= 0.0 ==> r >= 0.0
  {
    if y == 0.0 then 0.0 else x / y
  }

  /** Length normalisation: one for a document of average length. */
  function Norm(w: Weights, length: nat, average: real): real {
    1.0 - w.b + Ratio(Product(w.b, length as real), average)
  }

  function Denominator(w: Weights, frequency: nat, length: nat, average: real): real {
    frequency as real + Product(w.k1, Norm(w, length, average))
  }

  function Saturation(w: Weights, frequency: nat, length: nat, average: real): real {
    Ratio(Product(frequency as real, w.k1 + 1.0), Denominator(w, frequency, length, average))
  }

  /** What one occurrence of a query term contributes, from document counts alone. */
  function TermScore(log: real -> real, w: Weights, documents: nat, holders: nat, frequency: nat, length: nat,
                     average: real): real
  {
    var idf := log(((documents - holders) as real + 0.5) / (holders as real + 0.5) + 1.0);
    idf * Saturation(w, frequency, length, average)
  }

  ghost function MeanLength(documents: map<DocId, Document>): real
    requires |documents| > 0
  {
    (LengthSum(documents) as real) / (|documents| as real)
  }

  /** The norm of a stored document. */
  ghost function RelativeLength(w: Weights, documents: map<DocId, Document>, id: DocId): real
    requires id in documents && |documents| > 0 && LengthSum(documents) > 0
  {
    PositiveMean(documents);
    LengthNorm(w, documents[id].length as real, MeanLength(documents))
  }

  lemma PositiveMean(documents: map<DocId, Document>)
    requires |documents| > 0 && LengthSum(documents) > 0
    ensures MeanLength(documents) > 0.0
  {
    QuotientPositive(LengthSum(documents) as real, |documents| as real);
  }

  /** Scoring a document for one of its terms divides by nothing that is zero. */
  ghost predicate Scorable(w: Weights, documents: map<DocId, Document>, id: DocId, t: string)
    requires id in documents && t in documents[id].terms
  {
    && |documents| > 0 && LengthSum(documents) > 0
    && documents[id].terms[t].frequency as real + w.k1 * RelativeLength(w, documents, id) != 0.0
  }

  ghost predicate ScoresDefined(w: Weights, documents: map<DocId, Document>) {
    forall id, t :: id in documents && t in documents[id].terms ==> Scorable(w, documents, id, t)
  }

  lemma MeanIsAverage(documents: map<DocId, Document>, id: DocId)
    requires id in documents && documents[id].length > 0
    ensures |documents| > 0 && LengthSum(documents) > 0
    ensures MeanLength(documents) == Average(LengthSum(documents), |documents|) > 0.0
  {
    AverageIsPositive(documents, id);
    LengthSumPick(documents, id);
  }

  lemma NormWritten(w: Weights, documents: map<DocId, Document>, id: DocId)
    requires id in documents && documents[id].length > 0
    ensures |documents| > 0 && LengthSum(documents) > 0
    ensures RelativeLength(w, documents, id)
         == Norm(w, documents[id].length, Average(LengthSum(documents), |documents|))
  {
    MeanIsAverage(documents, id);
  }

  lemma ScorableDenominator(w: Weights, documents: map<DocId, Document>, id: DocId, t: string)
    requires id in documents && documents[id].length > 0 && t in documents[id].terms
    ensures Scorable(w, documents, id, t) <==>
            Denominator(w, documents[id].terms[t].frequency, documents[id].length,
                        Average(LengthSum(documents), |documents|)) != 0.0
  {
    hide RelativeLength, Norm, MeanLength;
    NormWritten(w, documents, id);
  }

  /** The weights the formula is meant for never lead to one. */
  lemma UsualWeightsDefine(w: Weights, documents: map<DocId, Document>)
    requires w.k1 >= 0.0 && 0.0 <= w.b <= 1.0 && DocumentsOk(documents)
    ensures ScoresDefined(w, documents)
  {
    var average := Average(LengthSum(documents), |documents|);
    forall id, t | id in documents && t in documents[id].terms
      ensures Scorable(w, documents, id, t)
    {
      AverageIsPositive(documents, id);
      ScorableDenominator(w, documents, id, t);
      hide Average, LengthSum, Scorable;
      assert Norm(w, documents[id].length, average) >= 0.0;
    }
  }

  /** The score of a document for a query by the BM25 formula, computed from the stored documents
      without any index: one summand per occurrence of a query term that the document contains. */
  ghost function DirectScore(log: real -> real, w: Weights, documents: map<DocId, Document>, id: DocId,
                             query: seq<string>): real
    requires id in documents
  {
    if query == [] then 0.0
    else
      var t := query[|query|-1];
      DirectScore(log, w, documents, id, query[..|query|-1])
      + if t in documents[id].terms
        then TermScore(log, w, |documents|, |Holders(documents, t)|, documents[id].terms[t].frequency,
                       documents[id].length, Average(LengthSum(documents), |documents|))
        else 0.0
  }

  lemma AverageIsPositive(documents: map<DocId, Document>, id: DocId)
    requires id in documents && documents[id].length > 0
    ensures |documents| > 0 && Average(LengthSum(documents), |documents|) > 0.0
  {
    LengthSumPick(documents, id);
    SubsetSize({id}, documents.Keys);
    QuotientPositive(LengthSum(documents) as real, |documents| as real);
  }

  /** The occurrences of query terms that a document contains, in query order. */
  ghost function MatchedTerms(doc: Document, query: seq<string>): seq<string> {
    if query == [] then []
    else
      var before := MatchedTerms(doc, query[..|query|-1]);
      if query[|query|-1] in doc.terms then before + [query[|query|-1]] else before
  }

  ghost predicate DocumentsOk(documents: map<DocId, Document>) {
    forall id :: id in documents ==>
                   documents[id].length > 0 && forall t :: t in documents[id].terms ==>
                       documents[id].terms[t].frequency > 0
  }

  lemma WellFormedDocumentsOk(documents: map<DocId, Document>, cfg: TextConfig)
    requires WellFormed(documents, cfg)
    ensures DocumentsOk(documents)
  {
    forall id | id in documents
      ensures documents[id].length > 0 && forall t :: t in documents[id].terms ==> documents[id].terms[t].frequency > 0
    {
      assert documents[id] == DocOf(id, documents[id].content, cfg);
      forall t | t in documents[id].terms
        ensures documents[id].terms[t].frequency > 0
      {
        DocTermsPositive(id, documents[id].content, cfg, t);
      }
    }
  }

  /** Scores of all documents that contain a query term and reach the minimum, highest first when
      read as ascending negated scores. */
  ghost function NegatedScores(log: real -> real, w: Weights, documents: map<DocId, Document>, query: seq<string>,
                               minScore: real): map<DocId, real>
  {
    map id | id in documents && MatchedTerms(documents[id], query) != []
             && DirectScore(log, w, documents, id, query) >= minScore
      :: -DirectScore(log, w, documents, id, query)
  }

  function HitIds(hits: seq<Hit>): (ids: seq<DocId>)
    ensures |ids| == |hits| && forall i :: 0 <= i < |ids| ==> ids[i] == hits[i].id
  {
    seq(|hits|, i requires 0 <= i < |hits| => hits[i].id)
  }

  /** A hit shows its document's true score and matched terms. */
  ghost predicate HitOk(log: real -> real, w: Weights, documents: map<DocId, Document>, query: seq<string>, hit: Hit)
  {
    && hit.id in documents
    && hit.score == DirectScore(log, w, documents, hit.id, query)
    && hit.matched == MatchedTerms(documents[hit.id], query)
  }

  // ---------------------------------------------------------------- building blocks

  /** Counts every term and records its positions. */
  method CountTerms(id: DocId, content: string, words: seq<string>, text: TextConfig) returns (doc: Document)
    requires words == Words(content, text)
    ensures doc == DocOf(id, content, text)
  {
    var terms: map<string, Term> := map[];
    assert terms == TermsUpTo(words, 0);
    for pos := 0 to |words|
      invariant terms == TermsUpTo(words, pos)
    {
      terms := CountTerm(terms, words, pos);
    }
    doc := Document(id, content, terms, |words|);
  }

  method CountTerm(terms: map<string, Term>, words: seq<string>, pos: nat) returns (counted: map<string, Term>)
    requires pos < |words| && terms == TermsUpTo(words, pos)
    ensures counted == TermsUpTo(words, pos + 1)
  {
    var term := words[pos];
    TermsStep(words, pos);
    var before := if term in terms then terms[term] else Term(term, 0, []);
    counted := terms[term := Term(term, before.frequency + 1, before.positions + [pos])];
  }

  /** remove_if over one posting list. */
  method EraseFrom(postings: seq<Posting>, id: DocId) returns (kept: seq<Posting>)
    ensures kept == Without(postings, id)
  {
    kept := [];
    for i := 0 to |postings|
      invariant kept == Without(postings[..i], id)
    {
      assert postings[..i+1][..i] == postings[..i];
      if postings[i].doc != id {
        kept := kept + [postings[i]];
      }
    }
    assert postings[..|postings|] == postings;
  }

  /** Enters a document's terms into both tables, in any order. */
  method EnterTerms(postings0: map<string, seq<Posting>>, frequency0: map<string, nat>, doc: Document, ghost ix: Index)
    returns (postings: map<string, seq<Posting>>, frequency: map<string, nat>)
    requires postings0 == ix.postings && frequency0 == ix.documentFrequency
    ensures postings == WithDocument(ix, doc).postings
    ensures frequency == WithDocument(ix, doc).documentFrequency
  {
    postings, frequency := postings0, frequency0;
    ghost var done: set<string> := {};
    var todo := doc.terms.Keys;
    EnteredNone(ix, doc);
    while todo != {}
      invariant todo <= doc.terms.Keys && done == doc.terms.Keys - todo
      invariant postings == EnteredPostings(ix, doc, done)
      invariant frequency == EnteredFrequencies(ix, doc, done)
      decreases todo
    {
      var term :| term in todo;
      var data := doc.terms[term];
      EnteredPostingsStep(ix, doc, done, term);
      EnteredFrequenciesStep(ix, doc, done, term);
      var list := if term in postings then postings[term] else [];
      postings := postings[term := list + [Posting(doc.id, data.frequency)]];
      var count := if term in frequency then frequency[term] else 0;
      if data.frequency > 0 {
        count := count + 1;
      }
      frequency := frequency[term := count];
      todo := todo - {term};
      done := done + {term};
    }
    assert done == doc.terms.Keys;
    EnteredAll(ix, doc);
  }

  /** Takes a document's terms out of both tables, in any order. */
  method LeaveTerms(postings0: map<string, seq<Posting>>, frequency0: map<string, nat>, doc: Document, ghost ix: Index)
    returns (postings: map<string, seq<Posting>>, frequency: map<string, nat>)
    requires postings0 == ix.postings && frequency0 == ix.documentFrequency
    requires doc.id in ix.documents && ix.documents[doc.id] == doc && ix.totalDocuments > 0
            && ix.totalTerms >= doc.length
    requires forall t :: TermMirror(ix, t)
    ensures postings == WithoutDocument(ix, doc.id).postings
    ensures frequency == WithoutDocument(ix, doc.id).documentFrequency
  {
    postings, frequency := postings0, frequency0;
    ghost var done: set<string> := {};
    var todo := doc.terms.Keys;
    LeftNone(ix, doc);
    while todo != {}
      invariant todo <= doc.terms.Keys && done == doc.terms.Keys - todo
      invariant postings == LeftPostings(ix, doc, done)
      invariant frequency == LeftFrequencies(ix, doc, done)
      decreases todo
    {
      var term :| term in todo;
      assert TermMirror(ix, term);
      LeftStep(ix, doc, done, term);
      var kept := EraseFrom(postings[term], doc.id);
      postings := postings[term := kept];
      frequency := frequency[term := frequency[term] - 1];
      if frequency[term] == 0 {
        frequency := frequency - {term};
        postings := postings - {term};
      }
      todo := todo - {term};
      done := done + {term};
    }
    assert done == doc.terms.Keys;
    LeftAll(ix, doc);
  }

  // ---------------------------------------------------------------------- scoring

  /** One document's accumulated score and matched terms after the first n query terms; a document
      is in the tables once a term has matched. */
  ghost predicate ScoredSoFar(log: real -> real, w: Weights, documents: map<DocId, Document>, query: seq<string>,
                              n: nat, id: DocId,
                              scores: map<DocId, real>, matched: map<DocId, seq<string>>)
    requires n <= |query| && id in documents && scores.Keys == matched.Keys
  {
    && (id in scores <==> MatchedTerms(documents[id], query[..n]) != [])
    && (id in scores ==>
          && scores[id] == DirectScore(log, w, documents, id, query[..n])
          && matched[id] == MatchedTerms(documents[id], query[..n]))
  }

  ghost predicate Accumulated(log: real -> real, w: Weights, documents: map<DocId, Document>, query: seq<string>,
                              n: nat,
                              scores: map<DocId, real>, matched: map<DocId, seq<string>>)
    requires n <= |query|
  {
    && scores.Keys == matched.Keys && scores.Keys <= documents.Keys
    && forall id :: id in documents ==> ScoredSoFar(log, w, documents, query, n, id, scores, matched)
  }

  /** A document without any matching query term has score zero. */
  lemma {:induction false} UnmatchedScoresZero(log: real -> real, w: Weights, documents: map<DocId, Document>,
                                               id: DocId, query: seq<string>)
    requires id in documents
    requires MatchedTerms(documents[id], query) == []
    ensures DirectScore(log, w, documents, id, query) == 0.0
  {
    if query != [] {
      UnmatchedScoresZero(log, w, documents, id, query[..|query|-1]);
    }
  }

  /** The documents in `gains` gained that much and one matched term; the others are as before. */
  ghost predicate GainedBy(gains: map<DocId, real>, term: string, scores0: map<DocId, real>,
                           matched0: map<DocId, seq<string>>,
                           scores: map<DocId, real>, matched: map<DocId, seq<string>>) {
    && scores0.Keys == matched0.Keys
    && scores.Keys == matched.Keys == scores0.Keys + gains.Keys
    && (forall id :: id in gains ==>
                       && scores[id] == (if id in scores0 then scores0[id] else 0.0) + gains[id]
                       && matched[id] == (if id in matched0 then matched0[id] else []) + [term])
    && (forall id :: id in scores0 && id !in gains ==> scores[id] == scores0[id] && matched[id] == matched0[id])
  }

  lemma GainedByOneMore(gains: map<DocId, real>, term: string, scores0: map<DocId, real>,
                        matched0: map<DocId, seq<string>>,
                        scores: map<DocId, real>, matched: map<DocId, seq<string>>, id: DocId, gain: real)
    requires GainedBy(gains, term, scores0, matched0, scores, matched) && id !in gains
    ensures GainedBy(gains[id := gain], term, scores0, matched0,
                     scores[id := (if id in scores then scores[id] else 0.0) + gain],
                     matched[id := (if id in matched then matched[id] else []) + [term]])
  {}

  /** The gains that the first n postings bring. */
  ghost predicate GainsOf(gain: Posting -> real, postings: seq<Posting>, n: nat, gains: map<DocId, real>)
    requires n <= |postings|
  {
    && (forall j :: 0 <= j < n ==> postings[j].doc in gains && gains[postings[j].doc] == gain(postings[j]))
    && (forall id :: id in gains ==> exists j :: 0 <= j < n && postings[j].doc == id)
  }

  lemma GainsOfOneMore(gain: Posting -> real, postings: seq<Posting>, n: nat, gains: map<DocId, real>)
    requires n < |postings| && OnePerDocument(postings) && GainsOf(gain, postings, n, gains)
    ensures postings[n].doc !in gains
    ensures GainsOf(gain, postings, n + 1, gains[postings[n].doc := gain(postings[n])])
  {
    var more := gains[postings[n].doc := gain(postings[n])];
    forall id | id in more
      ensures exists j :: 0 <= j < n + 1 && postings[j].doc == id
    {
      if id in gains {
        var j :| 0 <= j < n && postings[j].doc == id;
      } else {
        assert postings[n].doc == id;
      }
    }
  }

  /** Every document with a posting gained what the posting brings; the others are as before. */
  ghost predicate EachCredited(gain: Posting -> real, postings: seq<Posting>, term: string,
                               scores0: map<DocId, real>, matched0: map<DocId, seq<string>>,
                               scores: map<DocId, real>, matched: map<DocId, seq<string>>) {
    exists gains :: GainsOf(gain, postings, |postings|, gains)
        && GainedBy(gains, term, scores0, matched0, scores, matched)
  }

  /** What a posting of a term adds to its document's score. */
  ghost function PostingScore(log: real -> real, w: Weights, documents: map<DocId, Document>,
                              total: nat, holders: nat, average: real): Posting -> real
  {
    (p: Posting) =>
      if p.doc in documents
      then TermScore(log, w, total, holders, p.frequency, documents[p.doc].length, average) else 0.0
  }

  method Saturate(w: Weights, frequency: nat, length: nat, average: real) returns (saturation: real)
    requires average > 0.0 && Denominator(w, frequency, length, average) != 0.0
    ensures saturation == Saturation(w, frequency, length, average)
  {
    var numerator := Product(frequency as real, w.k1 + 1.0);
    var share := Product(w.b, length as real) / average;
    var denominator := frequency as real + Product(w.k1, 1.0 - w.b + share);
    hide Product;
    saturation := numerator / denominator;
  }

  /** Walks one posting list and credits each of its documents. */
  method ScorePostings(log: real -> real, w: Weights, documents: map<DocId, Document>, postings: seq<Posting>,
                       term: string,
                       total: nat, holders: nat, average: real, scores0: map<DocId, real>,
                       matched0: map<DocId, seq<string>>)
    returns (scores: map<DocId, real>, matched: map<DocId, seq<string>>)
    requires average > 0.0 && OnePerDocument(postings)
    requires forall p :: p in postings ==>
                           p.doc in documents && Denominator(w, p.frequency, documents[p.doc].length, average) != 0.0
    requires scores0.Keys == matched0.Keys
    ensures EachCredited(PostingScore(log, w, documents, total, holders, average), postings, term,
                         scores0, matched0, scores, matched)
  {
    hide PostingScore, GainedBy, GainsOf, Saturation, Denominator;
    scores, matched := scores0, matched0;
    var idf := log(((total - holders) as real + 0.5) / (holders as real + 0.5) + 1.0);
    ghost var gain := PostingScore(log, w, documents, total, holders, average);
    ghost var gains: map<DocId, real> := map[];
    NothingGained(gain, postings, term, scores0, matched0);
    for i := 0 to |postings|
      invariant GainedBy(gains, term, scores0, matched0, scores, matched)
      invariant GainsOf(gain, postings, i, gains)
    {
      var p := postings[i];
      assert p in postings;
      var saturation := Saturate(w, p.frequency, documents[p.doc].length, average);
      var score := idf * saturation;
      PostingScoreIs(log, w, documents, total, holders, average, p);
      assert gain(p) == score;
      GainsOfOneMore(gain, postings, i, gains);
      GainedByOneMore(gains, term, scores0, matched0, scores, matched, p.doc, score);
      scores := scores[p.doc := (if p.doc in scores then scores[p.doc] else 0.0) + score];
      matched := matched[p.doc := (if p.doc in matched then matched[p.doc] else []) + [term]];
      gains := gains[p.doc := score];
    }
  }

  lemma NothingGained(gain: Posting -> real, postings: seq<Posting>, term: string,
                      scores: map<DocId, real>, matched: map<DocId, seq<string>>)
    requires scores.Keys == matched.Keys
    ensures GainedBy(map[], term, scores, matched, scores, matched) && GainsOf(gain, postings, 0, map[])
  {
  }

  lemma PostingScoreIs(log: real -> real, w: Weights, documents: map<DocId, Document>, total: nat, holders: nat,
                       average: real, p: Posting)
    requires p.doc in documents
    ensures PostingScore(log, w, documents, total, holders, average)(p)
            == log(((total - holders) as real + 0.5) / (holders as real + 0.5) + 1.0)
               * Saturation(w, p.frequency, documents[p.doc].length, average)
  {
  }

  /** How one more query term changes a document's score and matched terms. */
  lemma OneMoreTerm(log: real -> real, w: Weights, documents: map<DocId, Document>, id: DocId, query: seq<string>,
                    n: nat)
    requires id in documents && n < |query|
    ensures var t, doc := query[n], documents[id];
            && DirectScore(log, w, documents, id, query[..n+1])
               == DirectScore(log, w, documents, id, query[..n])
                  + (if t in doc.terms
                     then TermScore(log, w, |documents|, |Holders(documents, t)|, doc.terms[t].frequency, doc.length,
                                    Average(LengthSum(documents), |documents|))
                     else 0.0)
            && MatchedTerms(doc, query[..n+1])
               == if t in doc.terms then MatchedTerms(doc, query[..n]) + [t] else MatchedTerms(doc, query[..n])
  {
    assert query[..n+1][..n] == query[..n];
  }

  /** What crediting the documents of a term means for one document. */
  ghost predicate Credited(log: real -> real, w: Weights, documents: map<DocId, Document>, t: string, id: DocId,
                           average: real,
                           scores: map<DocId, real>, matched: map<DocId, seq<string>>,
                           scores': map<DocId, real>, matched': map<DocId, seq<string>>)
    requires id in documents
    requires scores.Keys == matched.Keys && scores'.Keys == matched'.Keys
  {
    var doc := documents[id];
    if t in doc.terms then
      && id in scores'
      && scores'[id] == (if id in scores then scores[id] else 0.0)
                        + TermScore(log, w, |documents|, |Holders(documents, t)|, doc.terms[t].frequency, doc.length,
                            average)
      && matched'[id] == (if id in matched then matched[id] else []) + [t]
    else
      && (id in scores' <==> id in scores)
      && (id in scores ==> scores'[id] == scores[id] && matched'[id] == matched[id])
  }

  /** The gains from the posting list of a term credit every document. */
  lemma GainsCredit(log: real -> real, w: Weights, ix: Index, t: string, gains: map<DocId, real>,
                    scores: map<DocId, real>, matched: map<DocId, seq<string>>,
                    scores': map<DocId, real>, matched': map<DocId, seq<string>>)
    requires TotalsMirror(ix) && TermMirror(ix, t) && t in ix.postings
    requires GainedBy(gains, t, scores, matched, scores', matched')
    requires GainsOf(PostingScore(log, w, ix.documents, ix.totalDocuments, ix.documentFrequency[t], ix.avgDocLength),
                     ix.postings[t], |ix.postings[t]|, gains)
    ensures scores'.Keys == scores.Keys + gains.Keys && gains.Keys <= ix.documents.Keys
    ensures forall id :: id in ix.documents ==>
                           Credited(log, w, ix.documents, t, id, ix.avgDocLength, scores, matched, scores', matched')
  {
    forall id | id in gains
      ensures id in ix.documents && t in ix.documents[id].terms
    {
      var j :| 0 <= j < |ix.postings[t]| && ix.postings[t][j].doc == id;
      assert ix.postings[t][j] in ix.postings[t];
    }
    forall id | id in ix.documents
      ensures Credited(log, w, ix.documents, t, id, ix.avgDocLength, scores, matched, scores', matched')
    {
      if t in ix.documents[id].terms {
        assert id in Holders(ix.documents, t);
        var p := Posting(id, ix.documents[id].terms[t].frequency);
        assert p in ix.postings[t];
        var j :| 0 <= j < |ix.postings[t]| && ix.postings[t][j] == p;
      }
    }
  }

  /** Crediting every document accounts for the next query term. */
  lemma CreditsNextTerm(log: real -> real, w: Weights, documents: map<DocId, Document>, query: seq<string>, n: nat,
                        average: real,
                        scores: map<DocId, real>, matched: map<DocId, seq<string>>,
                        scores': map<DocId, real>, matched': map<DocId, seq<string>>)
    requires n < |query|
    requires average == Average(LengthSum(documents), |documents|)
    requires Accumulated(log, w, documents, query, n, scores, matched)
    requires scores'.Keys == matched'.Keys && scores'.Keys <= documents.Keys
    requires forall id :: id in documents ==>
                            Credited(log, w, documents, query[n], id, average, scores, matched, scores', matched')
    ensures Accumulated(log, w, documents, query, n + 1, scores', matched')
  {
    forall id | id in documents
      ensures ScoredSoFar(log, w, documents, query, n + 1, id, scores', matched')
    {
      assert ScoredSoFar(log, w, documents, query, n, id, scores, matched);
      assert Credited(log, w, documents, query[n], id, average, scores, matched, scores', matched');
      CreditsOne(log, w, documents, query, n, id, average, scores, matched, scores', matched');
    }
  }

  lemma CreditsOne(log: real -> real, w: Weights, documents: map<DocId, Document>, query: seq<string>, n: nat,
                   id: DocId, average: real,
                   scores: map<DocId, real>, matched: map<DocId, seq<string>>,
                   scores': map<DocId, real>, matched': map<DocId, seq<string>>)
    requires n < |query| && id in documents
    requires average == Average(LengthSum(documents), |documents|)
    requires scores.Keys == matched.Keys && scores'.Keys == matched'.Keys
    requires ScoredSoFar(log, w, documents, query, n, id, scores, matched)
    requires Credited(log, w, documents, query[n], id, average, scores, matched, scores', matched')
    ensures ScoredSoFar(log, w, documents, query, n + 1, id, scores', matched')
  {
    OneMoreTerm(log, w, documents, id, query, n);
    if id !in scores {
      UnmatchedScoresZero(log, w, documents, id, query[..n]);
    }
  }

  /** A query term no document contains changes nothing. */
  lemma SkipsUnknownTerm(log: real -> real, w: Weights, documents: map<DocId, Document>, query: seq<string>, n: nat,
                         scores: map<DocId, real>, matched: map<DocId, seq<string>>)
    requires n < |query|
    requires Accumulated(log, w, documents, query, n, scores, matched)
    requires Holders(documents, query[n]) == {}
    ensures Accumulated(log, w, documents, query, n + 1, scores, matched)
  {
    forall id | id in documents
      ensures ScoredSoFar(log, w, documents, query, n + 1, id, scores, matched)
    {
      assert ScoredSoFar(log, w, documents, query, n, id, scores, matched);
      assert id !in Holders(documents, query[n]);
      OneMoreTerm(log, w, documents, id, query, n);
    }
  }

  // ----------------------------------------------------------------------- ranking

  /** Keeps the hits that reach the minimum, in whatever order the table is walked. */
  method Collect(scores: map<DocId, real>, matched: map<DocId, seq<string>>, minScore: real) returns (hits: seq<Hit>)
    requires scores.Keys == matched.Keys
    ensures NoDup(HitIds(hits))
    ensures forall h :: h in hits <==>
            h.id in scores && scores[h.id] >= minScore && h == Hit(h.id, scores[h.id], matched[h.id])
  {
    hits := [];
    var todo := scores.Keys;
    while todo != {}
      invariant todo <= scores.Keys
      invariant forall h :: h in hits <==> h.id in scores && h.id !in todo && scores[h.id] >= minScore
                                           && h == Hit(h.id, scores[h.id], matched[h.id])
      invariant NoDup(HitIds(hits))
      decreases todo
    {
      var id :| id in todo;
      if scores[id] >= minScore {
        forall i | 0 <= i < |hits|
          ensures HitIds(hits)[i] != id
        {
          assert hits[i] in hits;
        }
        hits := hits + [Hit(id, scores[id], matched[id])];
      }
      todo := todo - {id};
    }
  }

  ghost predicate Descending(hits: seq<Hit>) {
    forall i, j :: 0 <= i < j < |hits| ==> hits[i].score >= hits[j].score
  }

  /** Any sorting by falling score. */
  method SortByScore(hits: seq<Hit>) returns (sorted: seq<Hit>)
    ensures |sorted| == |hits| && multiset(sorted) == multiset(hits) && Descending(sorted)
  {
    sorted := [];
    for i := 0 to |hits|
      invariant |sorted| == i && multiset(sorted) == multiset(hits[..i]) && Descending(sorted)
    {
      var h := hits[i];
      assert hits[..i+1] == hits[..i] + [h];
      sorted := InsertByScore(sorted, h);
    }
    assert hits[..|hits|] == hits;
  }

  method InsertByScore(sorted: seq<Hit>, h: Hit) returns (out: seq<Hit>)
    requires Descending(sorted)
    ensures |out| == |sorted| + 1 && multiset(out) == multiset(sorted) + multiset{h} && Descending(out)
  {
    var j := |sorted|;
    while j > 0 && sorted[j-1].score < h.score
      invariant 0 <= j <= |sorted|
      invariant forall k :: j <= k < |sorted| ==> sorted[k].score < h.score
    {
      j := j - 1;
    }
    out := sorted[..j] + [h] + sorted[j..];
    InsertionDescends(sorted, j, h, out);
  }

  lemma InsertionDescends(sorted: seq<Hit>, j: nat, h: Hit, out: seq<Hit>)
    requires j <= |sorted| && out == sorted[..j] + [h] + sorted[j..]
    requires Descending(sorted)
    requires j == 0 || sorted[j-1].score >= h.score
    requires forall k :: j <= k < |sorted| ==> sorted[k].score < h.score
    ensures multiset(out) == multiset(sorted) + multiset{h} && Descending(out)
  {
    assert sorted == sorted[..j] + sorted[j..];
    assert forall i :: 0 <= i < j ==> sorted[i].score >= sorted[j-1].score;
    forall a, b | 0 <= a < b < |out|
      ensures out[a].score >= out[b].score
    {
      InsertedPair(sorted, j, h, out, a, b);
    }
  }

  lemma InsertedPair(sorted: seq<Hit>, j: nat, h: Hit, out: seq<Hit>, a: nat, b: nat)
    requires j <= |sorted| && out == sorted[..j] + [h] + sorted[j..] && a < b < |out|
    requires Descending(sorted)
    requires forall k :: 0 <= k < j ==> sorted[k].score >= h.score
    requires forall k :: j <= k < |sorted| ==> sorted[k].score < h.score
    ensures out[a].score >= out[b].score
  {
    assert out[a] == if a < j then sorted[a] else if a == j then h else sorted[a-1];
    assert out[b] == if b < j then sorted[b] else if b == j then h else sorted[b-1];
  }

  /** The collected scores, negated so that the best come first. */
  ghost function CollectedTable(scores: map<DocId, real>, minScore: real): map<DocId, real> {
    map id | id in scores && scores[id] >= minScore :: -scores[id]
  }

  /** Sorted and cut, the collected hits are the best k of the table. */
  lemma SortedHitsAreBest(scores: map<DocId, real>, matched: map<DocId, seq<string>>, minScore: real, k: nat,
                          hits: seq<Hit>, sorted: seq<Hit>)
    requires scores.Keys == matched.Keys && NoDup(HitIds(hits))
    requires forall h :: h in hits <==>
            h.id in scores && scores[h.id] >= minScore && h == Hit(h.id, scores[h.id], matched[h.id])
    requires |sorted| == |hits| && multiset(sorted) == multiset(hits) && Descending(sorted)
    ensures IsBest(CollectedTable(scores, minScore), k, HitIds(sorted[..Min(k, |sorted|)]))
    ensures forall h :: h in sorted ==> h.id in scores && h == Hit(h.id, scores[h.id], matched[h.id])
  {
    var table := CollectedTable(scores, minScore);
    PermutationMembers(hits, sorted);
    SortedIdsDistinct(hits, sorted);
    var ids := HitIds(sorted);
    forall x
      ensures x in ids <==> x in table
    {
      if x in table {
        assert Hit(x, scores[x], matched[x]) in sorted;
        var i :| 0 <= i < |sorted| && sorted[i] == Hit(x, scores[x], matched[x]);
        assert ids[i] == x;
      }
      if x in ids {
        var i :| 0 <= i < |ids| && ids[i] == x;
        assert sorted[i] in sorted;
      }
    }
    forall i | 0 <= i < |sorted|
      ensures table[ids[i]] == -sorted[i].score
    {
      assert sorted[i] in sorted;
    }
    SortedPrefixIsBest(table, k, ids);
    assert HitIds(sorted[..Min(k, |sorted|)]) == ids[..Min(k, |ids|)];
  }

  lemma CollectedTableIsDirect(log: real -> real, w: Weights, documents: map<DocId, Document>, query: seq<string>,
                               minScore: real,
                               scores: map<DocId, real>, matched: map<DocId, seq<string>>)
    requires Accumulated(log, w, documents, query, |query|, scores, matched)
    ensures CollectedTable(scores, minScore) == NegatedScores(log, w, documents, query, minScore)
    ensures forall id :: id in scores ==> HitOk(log, w, documents, query, Hit(id, scores[id], matched[id]))
  {
    hide DirectScore, MatchedTerms;
    assert query[..|query|] == query;
    assert forall id :: id in documents ==> ScoredSoFar(log, w, documents, query, |query|, id, scores, matched);
  }

  /** Collected, sorted and cut, the hits are the best k of the direct scores. */
  lemma RankedHitsAreBest(log: real -> real, w: Weights, documents: map<DocId, Document>, query: seq<string>,
                          minScore: real, k: nat,
                          scores: map<DocId, real>, matched: map<DocId, seq<string>>, hits: seq<Hit>, sorted: seq<Hit>)
    requires Accumulated(log, w, documents, query, |query|, scores, matched)
    requires NoDup(HitIds(hits))
    requires forall h :: h in hits <==>
            h.id in scores && scores[h.id] >= minScore && h == Hit(h.id, scores[h.id], matched[h.id])
    requires |sorted| == |hits| && multiset(sorted) == multiset(hits) && Descending(sorted)
    ensures var best := sorted[..Min(k, |sorted|)];
            && IsBest(NegatedScores(log, w, documents, query, minScore), k, HitIds(best))
            && forall h :: h in best ==> HitOk(log, w, documents, query, h)
  {
    CollectedTableIsDirect(log, w, documents, query, minScore, scores, matched);
    SortedHitsAreBest(scores, matched, minScore, k, hits, sorted);
  }

  lemma SortedIdsDistinct(hits: seq<Hit>, sorted: seq<Hit>)
    requires NoDup(HitIds(hits)) && multiset(sorted) == multiset(hits)
    requires forall a, b :: a in hits && b in hits && a.id == b.id ==> a == b
    ensures NoDup(HitIds(sorted))
  {
    forall i, j | 0 <= i < j < |hits|
      ensures hits[i] != hits[j]
    {
      assert HitIds(hits)[i] != HitIds(hits)[j];
    }
    PermutationNoDup(hits, sorted);
    PermutationMembers(hits, sorted);
    forall i, j | 0 <= i < j < |sorted|
      ensures sorted[i].id != sorted[j].id
    {
      assert sorted[i] in sorted && sorted[j] in sorted;
    }
  }

  // -------------------------------------------------------------------- the engine

  class BM25Engine {
    const text: TextConfig
    const weights: Weights
    const log: real -> real
    var documents: map<DocId, Document>
    var invertedIndex: map<string, seq<Posting>>
    var documentFrequency: map<string, nat>
    var totalDocuments: nat
    var totalTerms: nat
    var avgDocLength: real

    ghost function Ix(): Index
      reads this
    {
      Index(documents, invertedIndex, documentFrequency, totalDocuments, totalTerms, avgDocLength)
    }

    ghost predicate Valid()
      reads this
    {
      Mirrors(Ix(), text)
    }

    constructor (text: TextConfig, weights: Weights, log: real -> real)
      ensures Valid() && Ix() == EMPTY
      ensures this.text == text && this.weights == weights && this.log == log
    {
      this.text := text;
      this.weights := weights;
      this.log := log;
      documents, invertedIndex, documentFrequency := map[], map[], map[];
      totalDocuments, totalTerms, avgDocLength := 0, 0, 0.0;
    }

    method AddDocument(id: DocId, content: string) returns (r: Status)
      requires Valid()
      modifies this
      ensures Valid()
      ensures r == if id in old(documents) || Words(content, text) == [] then Err(InvalidData) else Ok(())
      ensures Ix() == old(Added(Ix(), id, content, text))
      ensures documents == if r.Ok? then old(documents)[id := DocOf(id, content, text)] else old(documents)
    {
      if id in documents {
        return Err(InvalidData);
      }
      var words := ProcessText(content, text);
      if words == [] {
        return Err(InvalidData);
      }
      var doc := CountTerms(id, content, words, text);
      AddKeepsMirror(Ix(), id, content, text);
      Store(doc);
      return Ok(());
    }

    method Store(doc: Document)
      modifies this
      ensures Ix() == old(WithDocument(Ix(), doc))
    {
      invertedIndex, documentFrequency := EnterTerms(invertedIndex, documentFrequency, doc, Ix());
      documents := documents[doc.id := doc];
      totalDocuments := totalDocuments + 1;
      totalTerms := totalTerms + doc.length;
      avgDocLength := (totalTerms as real) / (totalDocuments as real);
    }

    method RemoveDocument(id: DocId) returns (r: Status)
      requires Valid()
      modifies this
      ensures Valid()
      ensures r == if id in old(documents) then Ok(()) else Err(VectorNotFound)
      ensures Ix() == old(Removed(Ix(), id))
      ensures documents == old(documents) - {id}
    {
      if id !in documents {
        return Err(VectorNotFound);
      }
      RemoveKeepsMirror(Ix(), id, text);
      forall t
        ensures TermMirror(Ix(), t)
      {
      }
      Drop(documents[id]);
      return Ok(());
    }

    method Drop(doc: Document)
      requires doc.id in documents && documents[doc.id] == doc && totalDocuments > 0 && totalTerms >= doc.length
      requires forall t :: TermMirror(Ix(), t)
      modifies this
      ensures Ix() == old(WithoutDocument(Ix(), doc.id))
    {
      invertedIndex, documentFrequency := LeaveTerms(invertedIndex, documentFrequency, doc, Ix());
      totalTerms := totalTerms - doc.length;
      documents := documents - {doc.id};
      totalDocuments := totalDocuments - 1;
      if totalDocuments > 0 {
        avgDocLength := (totalTerms as real) / (totalDocuments as real);
      } else {
        avgDocLength := 0.0;
      }
    }

    /** Removes the old document, if any, and adds the new content. */
    method UpdateDocument(id: DocId, content: string) returns (r: Status)
      requires Valid()
      modifies this
      ensures Valid()
      ensures r == if Words(content, text) == [] then Err(InvalidData) else Ok(())
      ensures Ix() == old(Step(Ix(), Update(id, content), text))
      ensures documents == if r.Ok? then old(documents)[id := DocOf(id, content, text)] else old(documents) - {id}
    {
      if id in documents {
        RemoveIsDefined(Ix(), id);
      }
      ReplaceEntry(documents, id, DocOf(id, content, text));
      var removed := RemoveDocument(id);
      r := AddDocument(id, content);
    }

    /** The highest-scoring k documents by the direct formula, or an error for a query without terms. */
    method Search(query: string, k: nat, minScore: real) returns (answer: Result<seq<Hit>>)
      requires Valid() && ScoresDefined(weights, documents)
      ensures documents == map[] ==> answer == Ok([])
      ensures documents != map[] && Words(query, text) == [] ==> answer == Err(InvalidInput)
      ensures documents != map[] && Words(query, text) != [] ==>
                && answer.Ok?
                && IsBest(NegatedScores(log, weights, documents, Words(query, text), minScore), k, HitIds(answer.value))
                && forall h :: h in answer.value ==> HitOk(log, weights, documents, Words(query, text), h)
    {
      if totalDocuments == 0 {
        return Ok([]);
      }
      var words := ProcessText(query, text);
      if words == [] {
        return Err(InvalidInput);
      }
      WellFormedDocumentsOk(documents, text);
      var scores, matched := ScoreQuery(words);
      var hits := Collect(scores, matched, minScore);
      var sorted := SortByScore(hits);
      RankedHitsAreBest(log, weights, documents, words, minScore, k, scores, matched, hits, sorted);
      answer := Ok(sorted[..Min(k, |sorted|)]);
    }

    method ScoreQuery(words: seq<string>) returns (scores: map<DocId, real>, matched: map<DocId, seq<string>>)
      requires Valid() && ScoresDefined(weights, documents) && DocumentsOk(documents) && documents != map[]
      ensures Accumulated(log, weights, documents, words, |words|, scores, matched)
    {
      scores, matched := map[], map[];
      ghost var someone :| someone in documents;
      AverageIsPositive(documents, someone);
      for n := 0 to |words|
        invariant Accumulated(log, weights, documents, words, n, scores, matched)
      {
        var term := words[n];
        assert TermMirror(Ix(), term);
        if term !in invertedIndex {
          SkipsUnknownTerm(log, weights, documents, words, n, scores, matched);
          continue;
        }
        var postings := invertedIndex[term];
        scores, matched := CreditTerm(words, n, postings, scores, matched);
      }
    }

    method CreditTerm(words: seq<string>, n: nat, postings: seq<Posting>, scores0: map<DocId, real>,
                      matched0: map<DocId, seq<string>>)
      returns (scores: map<DocId, real>, matched: map<DocId, seq<string>>)
      requires ScoresDefined(weights, documents) && DocumentsOk(documents) && n < |words| && avgDocLength > 0.0
      requires TotalsMirror(Ix()) && TermMirror(Ix(), words[n])
      requires words[n] in invertedIndex && postings == invertedIndex[words[n]]
      requires Accumulated(log, weights, documents, words, n, scores0, matched0)
      ensures Accumulated(log, weights, documents, words, n + 1, scores, matched)
    {
      forall p | p in postings
        ensures p.doc in documents
        ensures Denominator(weights, p.frequency, documents[p.doc].length, avgDocLength) != 0.0
      {
        assert p.doc in Holders(documents, words[n]);
        assert Scorable(weights, documents, p.doc, words[n]);
        ScorableDenominator(weights, documents, p.doc, words[n]);
      }
      scores, matched := ScorePostings(log, weights, documents, postings, words[n], totalDocuments,
                                       documentFrequency[words[n]], avgDocLength, scores0, matched0);
      ghost var gains :|
        GainsOf(PostingScore(log, weights, documents, totalDocuments, documentFrequency[words[n]], avgDocLength),
                postings, |postings|, gains)
        && GainedBy(gains, words[n], scores0, matched0, scores, matched);
      GainsCredit(log, weights, Ix(), words[n], gains, scores0, matched0, scores, matched);
      CreditsNextTerm(log, weights, documents, words, n, avgDocLength, scores0, matched0, scores, matched);
    }
  }

  lemma ReplaceEntry(documents: map<DocId, Document>, id: DocId, doc: Document)
    ensures (documents - {id})[id := doc] == documents[id := doc]
  {
  }

  lemma TermsStep(words: seq<string>, n: nat)
    requires n < |words|
    ensures var was, t := TermsUpTo(words, n), words[n];
            var before := if t in was then was[t] else Term(t, 0, []);
            TermsUpTo(words, n + 1) == was[t := Term(t, before.frequency + 1, before.positions + [n])]
  {
    var was := TermsUpTo(words, n);
    var now, next := words[..n], words[..n+1];
    assert next == now + [words[n]];
    PositionsExist(words, words[n], n);
    assert TermAt(words, words[n], n + 1).positions == TermAt(words, words[n], n).positions + [n];
    var before := if words[n] in was then was[words[n]] else Term(words[n], 0, []);
    var will := was[words[n] := Term(words[n], before.frequency + 1, before.positions + [n])];
    assert TermsUpTo(words, n + 1).Keys == will.Keys;
    forall t | t in will
      ensures TermsUpTo(words, n + 1)[t] == will[t]
    {
      if t != words[n] {
        assert PositionsOf(words, t, n + 1) == PositionsOf(words, t, n);
      }
    }
  }

  // The tables while a document's terms are being entered or taken out; `done` has been handled.

  ghost function EnteredPostings(ix: Index, doc: Document, done: set<string>): map<string, seq<Posting>>
    requires done <= doc.terms.Keys
  {
    map t | t in ix.postings.Keys + done ::
      if t in done then PostingsOf(ix, t) + [Posting(doc.id, doc.terms[t].frequency)] else PostingsOf(ix, t)
  }

  ghost function EnteredFrequencies(ix: Index, doc: Document, done: set<string>): map<string, nat>
    requires done <= doc.terms.Keys
  {
    map t | t in ix.documentFrequency.Keys + done ::
      FrequencyOf(ix, t) + if t in done && doc.terms[t].frequency > 0 then 1 else 0
  }

  ghost function LeftPostings(ix: Index, doc: Document, done: set<string>): map<string, seq<Posting>> {
    map t | t in ix.postings && !(t in done && FrequencyOf(ix, t) <= 1) ::
      if t in done then Without(ix.postings[t], doc.id) else ix.postings[t]
  }

  ghost function LeftFrequencies(ix: Index, doc: Document, done: set<string>): map<string, nat> {
    map t | t in ix.documentFrequency && !(t in done && ix.documentFrequency[t] <= 1) ::
      if t in done then ix.documentFrequency[t] - 1 else ix.documentFrequency[t]
  }

  lemma EnteredNone(ix: Index, doc: Document)
    ensures EnteredPostings(ix, doc, {}) == ix.postings
    ensures EnteredFrequencies(ix, doc, {}) == ix.documentFrequency
  {
  }

  lemma EnteredPostingsStep(ix: Index, doc: Document, done: set<string>, t: string)
    requires done <= doc.terms.Keys && t in doc.terms && t !in done
    ensures var was := EnteredPostings(ix, doc, done);
            EnteredPostings(ix, doc, done + {t})
            == was[t := (if t in was then was[t] else []) + [Posting(doc.id, doc.terms[t].frequency)]]
  {
    var was := EnteredPostings(ix, doc, done);
    assert (if t in was then was[t] else []) == PostingsOf(ix, t);
    assert EnteredPostings(ix, doc, done + {t}).Keys == was.Keys + {t};
  }

  lemma EnteredFrequenciesStep(ix: Index, doc: Document, done: set<string>, t: string)
    requires done <= doc.terms.Keys && t in doc.terms && t !in done
    ensures var was := EnteredFrequencies(ix, doc, done);
            EnteredFrequencies(ix, doc, done + {t})
            == was[t := (if t in was then was[t] else 0) + if doc.terms[t].frequency > 0 then 1 else 0]
  {
  }

  lemma EnteredAll(ix: Index, doc: Document)
    ensures EnteredPostings(ix, doc, doc.terms.Keys) == WithDocument(ix, doc).postings
    ensures EnteredFrequencies(ix, doc, doc.terms.Keys) == WithDocument(ix, doc).documentFrequency
  {
  }

  lemma LeftNone(ix: Index, doc: Document)
    ensures LeftPostings(ix, doc, {}) == ix.postings
    ensures LeftFrequencies(ix, doc, {}) == ix.documentFrequency
  {
  }

  lemma LeftStep(ix: Index, doc: Document, done: set<string>, t: string)
    requires t !in done && TermMirror(ix, t)
    requires doc.id in ix.documents && ix.documents[doc.id] == doc && t in doc.terms
    ensures t in LeftPostings(ix, doc, done) && LeftPostings(ix, doc, done)[t] == ix.postings[t]
    ensures t in LeftFrequencies(ix, doc, done) && LeftFrequencies(ix, doc, done)[t] == ix.documentFrequency[t] >= 1
    ensures LeftPostings(ix, doc, done + {t})
            == if ix.documentFrequency[t] == 1
                then LeftPostings(ix, doc, done)[t := Without(ix.postings[t], doc.id)] - {t}
               else LeftPostings(ix, doc, done)[t := Without(ix.postings[t], doc.id)]
    ensures LeftFrequencies(ix, doc, done + {t})
            == if ix.documentFrequency[t] == 1 then LeftFrequencies(ix, doc, done)[t := 0] - {t}
               else LeftFrequencies(ix, doc, done)[t := ix.documentFrequency[t] - 1]
  {
    assert doc.id in Holders(ix.documents, t);
    SubsetSize({doc.id}, Holders(ix.documents, t));
  }

  lemma LeftAll(ix: Index, doc: Document)
    requires doc.id in ix.documents && ix.documents[doc.id] == doc && ix.totalDocuments > 0
            && ix.totalTerms >= doc.length
    ensures LeftPostings(ix, doc, doc.terms.Keys) == WithoutDocument(ix, doc.id).postings
    ensures LeftFrequencies(ix, doc, doc.terms.Keys) == WithoutDocument(ix, doc.id).documentFrequency
  {
  }
}
