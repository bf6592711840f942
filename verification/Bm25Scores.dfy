/**
 What the scores of a full-text search are, written out from the stored documents, and how they depend on
 frequencies and lengths.
 */
module Bm25Scores {
  import opened Sequences
  import opened Ranking
  import opened Bm25Index
  import opened Bm25Engines
  import opened Bm25Formula

  /** How much a frequency counts in a document with that norm. */
  function Saturated(k1: real, tf: real, norm: real): real
    requires tf + k1 * norm != 0.0
  {
    (tf * (k1 + 1.0)) / (tf + k1 * norm)
  }

  /** The weight of a term that so many of the documents hold. */
  function Idf(log: real -> real, documents: nat, holders: nat): real {
    log(((documents - holders) as real + 0.5) / (holders as real + 0.5) + 1.0)
  }

  /** What each occurrence of a term in the query adds to the score of a document. */
  ghost function TermWeight(log: real -> real, w: Weights, documents: map<DocId, Document>, id: DocId, t: string): real
    requires id in documents && (t in documents[id].terms ==> Scorable(w, documents, id, t))
  {
    if t !in documents[id].terms then 0.0
    else
      Idf(log, |documents|, |Holders(documents, t)|)
      * Saturated(w.k1, documents[id].terms[t].frequency as real, RelativeLength(w, documents, id))
  }

  /** The score of a document: the weights of all query terms, as often as they occur in the query. */
  ghost function Score(log: real -> real, w: Weights, documents: map<DocId, Document>, id: DocId, query: seq<string>)
    : real
    requires ScoresDefined(w, documents) && id in documents
  {
    Sum(seq(|query|, i requires 0 <= i < |query| => TermWeight(log, w, documents, id, query[i])))
  }

  lemma WeightIsTermScore(log: real -> real, w: Weights, documents: map<DocId, Document>, id: DocId, t: string)
    requires ScoresDefined(w, documents) && DocumentsOk(documents) && id in documents && t in documents[id].terms
    ensures TermWeight(log, w, documents, id, t)
            == TermScore(log, w, |documents|, |Holders(documents, t)|, documents[id].terms[t].frequency,
                         documents[id].length, Average(LengthSum(documents), |documents|))
  {
    NormWritten(w, documents, id);
    assert Scorable(w, documents, id, t);
    var norm := RelativeLength(w, documents, id);
    WeightWritten(log, w, documents, id, t, norm);
    hide Saturated, Idf, TermWeight;
    TermScoreWritten(log, w, |documents|, |Holders(documents, t)|, documents[id].terms[t].frequency,
                     documents[id].length, Average(LengthSum(documents), |documents|), norm);
  }

  /** The formula in one expression: N documents, n of them with the term. */
  lemma FormulaInFull(log: real -> real, w: Weights, N: nat, n: nat, tf: real, length: real, mean: real)
    requires mean > 0.0 && tf + w.k1 * LengthNorm(w, length, mean) != 0.0
    ensures tf + w.k1 * (1.0 - w.b + w.b * length / mean) != 0.0
    ensures Idf(log, N, n) * Saturated(w.k1, tf, LengthNorm(w, length, mean))
         == log(((N - n) as real + 0.5) / (n as real + 0.5) + 1.0)
            * ((tf * (w.k1 + 1.0)) / (tf + w.k1 * (1.0 - w.b + w.b * length / mean)))
  {
  }

  lemma WeightWritten(log: real -> real, w: Weights, documents: map<DocId, Document>, id: DocId, t: string, norm: real)
    requires id in documents && t in documents[id].terms && Scorable(w, documents, id, t)
    requires norm == RelativeLength(w, documents, id)
    ensures documents[id].terms[t].frequency as real + w.k1 * norm != 0.0
    ensures TermWeight(log, w, documents, id, t)
         == Idf(log, |documents|, |Holders(documents, t)|)
            * Saturated(w.k1, documents[id].terms[t].frequency as real, norm)
  {
  }

  lemma TermScoreWritten(log: real -> real, w: Weights, documents: nat, holders: nat, tf: nat, length: nat,
                         average: real, norm: real)
    requires norm == Norm(w, length, average) && tf as real + w.k1 * norm != 0.0
    ensures TermScore(log, w, documents, holders, tf, length, average)
         == Idf(log, documents, holders) * Saturated(w.k1, tf as real, norm)
  {
  }

  lemma {:induction false} ScoreIsDirect(log: real -> real, w: Weights, documents: map<DocId, Document>, id: DocId,
                                         query: seq<string>)
    requires ScoresDefined(w, documents) && DocumentsOk(documents) && id in documents
    ensures Score(log, w, documents, id, query) == DirectScore(log, w, documents, id, query)
  {
    if query != [] {
      var n := |query| - 1;
      ScoreIsDirect(log, w, documents, id, query[..n]);
      var weights := seq(|query|, i requires 0 <= i < |query| => TermWeight(log, w, documents, id, query[i]));
      assert weights[..n]
          == seq(n, i requires 0 <= i < n => TermWeight(log, w, documents, id, query[..n][i]));
      if query[n] in documents[id].terms {
        WeightIsTermScore(log, w, documents, id, query[n]);
      }
    }
  }

  /** Every hit of a search shows the score of the formula, summed over the occurrences of query terms. */
  lemma HitShowsScore(log: real -> real, w: Weights, documents: map<DocId, Document>, query: seq<string>, hit: Hit)
    requires DocumentsOk(documents) && ScoresDefined(w, documents)
    requires HitOk(log, w, documents, query, hit)
    ensures hit.id in documents
    ensures hit.score == Score(log, w, documents, hit.id, query)
    ensures forall t :: multiset(hit.matched)[t] == if t in documents[hit.id].terms then multiset(query)[t] else 0
  {
    ScoreIsDirect(log, w, documents, hit.id, query);
    forall t
      ensures multiset(hit.matched)[t] == if t in documents[hit.id].terms then multiset(query)[t] else 0
    {
      MatchedCount(documents[hit.id], query, t);
    }
  }

  lemma {:induction false} MatchedCount(doc: Document, query: seq<string>, t: string)
    ensures multiset(MatchedTerms(doc, query))[t] == if t in doc.terms then multiset(query)[t] else 0
  {
    if query != [] {
      var n := |query| - 1;
      MatchedCount(doc, query[..n], t);
      assert query == query[..n] + [query[n]];
    }
  }

  /** The document holds a query term and scores at least as much as asked for. */
  ghost predicate Qualifies(log: real -> real, w: Weights, documents: map<DocId, Document>, query: seq<string>,
                            minScore: real, id: DocId)
    requires ScoresDefined(w, documents)
  {
    && id in documents
    && (exists t :: t in query && t in documents[id].terms)
    && Score(log, w, documents, id, query) >= minScore
  }

  /** At most k documents that qualify, no document twice, each with its own score and the best first; one that
      qualifies is left out only by k others that score no less. */
  ghost predicate TopK(log: real -> real, w: Weights, documents: map<DocId, Document>, query: seq<string>,
                       minScore: real, k: nat, hits: seq<Hit>)
    requires ScoresDefined(w, documents)
  {
    && |hits| <= k
    && (forall h :: h in hits ==> Qualifies(log, w, documents, query, minScore, h.id)
                                  && h.score == Score(log, w, documents, h.id, query))
    && (forall i, j :: 0 <= i < j < |hits| ==> hits[i].id != hits[j].id && hits[i].score >= hits[j].score)
    && forall id :: Qualifies(log, w, documents, query, minScore, id) && (forall h :: h in hits ==> h.id != id) ==>
                      |hits| == k && forall h :: h in hits ==> h.score >= Score(log, w, documents, id, query)
  }

  lemma MatchedExists(doc: Document, query: seq<string>)
    ensures MatchedTerms(doc, query) != [] <==> exists t :: t in query && t in doc.terms
  {
    var matched := MatchedTerms(doc, query);
    if matched != [] {
      var t := matched[0];
      MatchedCount(doc, query, t);
      assert t in multiset(matched);
      assert t in multiset(query);
    }
    if t :| t in query && t in doc.terms {
      MatchedCount(doc, query, t);
      assert t in multiset(query);
    }
  }

  lemma TableOfQualified(log: real -> real, w: Weights, documents: map<DocId, Document>, query: seq<string>,
                         minScore: real, id: DocId)
    requires ScoresDefined(w, documents) && DocumentsOk(documents)
    ensures var table := NegatedScores(log, w, documents, query, minScore);
            && (id in table <==> Qualifies(log, w, documents, query, minScore, id))
            && (id in table ==> table[id] == -Score(log, w, documents, id, query))
  {
    if id in documents {
      ScoreIsDirect(log, w, documents, id, query);
      MatchedExists(documents[id], query);
    }
  }

  /** Every answer of a search is made of the k best documents by the formula. */
  lemma AnswerIsTopK(log: real -> real, w: Weights, documents: map<DocId, Document>, query: seq<string>, minScore: real,
                     k: nat, hits: seq<Hit>)
    requires DocumentsOk(documents) && ScoresDefined(w, documents)
    requires IsBest(NegatedScores(log, w, documents, query, minScore), k, HitIds(hits))
    requires forall h :: h in hits ==> HitOk(log, w, documents, query, h)
    ensures TopK(log, w, documents, query, minScore, k, hits)
  {
    var table := NegatedScores(log, w, documents, query, minScore);
    forall id: DocId
      ensures id in table <==> Qualifies(log, w, documents, query, minScore, id)
      ensures id in table ==> table[id] == -Score(log, w, documents, id, query)
    {
      TableOfQualified(log, w, documents, query, minScore, id);
    }
    forall h | h in hits
      ensures h.id in table && h.score == -table[h.id]
    {
      HitInTable(log, w, documents, query, minScore, k, hits, h);
    }
    hide Qualifies, Score;
    BestIsTopK(table, k, hits);
  }

  lemma HitInTable(log: real -> real, w: Weights, documents: map<DocId, Document>, query: seq<string>, minScore: real,
                   k: nat, hits: seq<Hit>, h: Hit)
    requires IsBest(NegatedScores(log, w, documents, query, minScore), k, HitIds(hits))
    requires h in hits && HitOk(log, w, documents, query, h)
    ensures var table := NegatedScores(log, w, documents, query, minScore); h.id in table && h.score == -table[h.id]
  {
    var i :| 0 <= i < |hits| && hits[i] == h;
    assert HitIds(hits)[i] == h.id;
  }

  /** A best-k list, read as hits. */
  lemma BestIsTopK(table: map<nat, real>, k: nat, hits: seq<Hit>)
    requires IsBest(table, k, HitIds(hits))
    requires forall h :: h in hits ==> h.id in table && h.score == -table[h.id]
    ensures |hits| <= k
    ensures forall i, j :: 0 <= i < j < |hits| ==> hits[i].id != hits[j].id && hits[i].score >= hits[j].score
    ensures forall id :: id in table && (forall h :: h in hits ==> h.id != id) ==>
                           |hits| == k && forall h :: h in hits ==> h.score >= -table[id]
  {
    var ids := HitIds(hits);
    AllFit(table, k, ids);
    forall i, j | 0 <= i < j < |hits|
      ensures hits[i].id != hits[j].id && hits[i].score >= hits[j].score
    {
      assert hits[i] in hits && hits[j] in hits;
      assert ids[i] != ids[j] && table[ids[i]] <= table[ids[j]];
    }
    forall id | id in table && (forall h :: h in hits ==> h.id != id)
      ensures |hits| == k && forall h :: h in hits ==> h.score >= -table[id]
    {
      assert id !in ids by {
        forall i | 0 <= i < |ids|
          ensures ids[i] != id
        {
          assert hits[i] in hits;
        }
      }
      forall h | h in hits
        ensures h.score >= -table[id]
      {
        var i :| 0 <= i < |hits| && hits[i] == h;
        assert table[ids[i]] <= table[id];
      }
    }
  }

  /** A best-k list with room left holds every entry of its table. */
  lemma AllFit(table: map<nat, real>, k: nat, best: seq<nat>)
    requires IsBest(table, k, best)
    ensures |best| < k ==> forall x :: x in table ==> x in best
  {
    if |best| < k {
      NoDupLength(best);
      assert SetOf(best) <= table.Keys;
      assert |table.Keys - SetOf(best)| == 0;
      forall x | x in table
        ensures x in best
      {
        assert x !in table.Keys - SetOf(best);
      }
    }
  }

  // ------------------------------------------------- how scores depend on the documents

  /** As a logarithm is: positive above one. */
  ghost predicate PositiveAboveOne(log: real -> real) {
    forall x :: x > 1.0 ==> log(x) > 0.0
  }

  /** The idf of a term is positive. */
  lemma IdfPositive(log: real -> real, documents: map<DocId, Document>, t: string)
    requires PositiveAboveOne(log)
    ensures |Holders(documents, t)| <= |documents| && Idf(log, |documents|, |Holders(documents, t)|) > 0.0
  {
    var held := Holders(documents, t);
    assert held <= documents.Keys;
    SubsetSize(held, documents.Keys);
    assert |documents.Keys| == |documents|;
    QuotientPositive((|documents| - |held|) as real + 0.5, |held| as real + 0.5);
  }

  /** A frequency counts for less in a document with a larger norm. */
  lemma SaturationFalls(k1: real, tf: real, norm: real, more: real)
    requires k1 > 0.0 && tf > 0.0 && 0.0 < norm < more
    ensures tf + k1 * norm > 0.0 && tf + k1 * more > 0.0
    ensures 0.0 < Saturated(k1, tf, more) < Saturated(k1, tf, norm)
  {
    ProductStrict(0.0, norm, k1);
    ProductStrict(norm, more, k1);
    ProductStrict(0.0, k1 + 1.0, tf);
    LargerDivisor(tf * (k1 + 1.0), tf + k1 * norm, tf + k1 * more);
  }

  /** A higher frequency counts for more. */
  lemma SaturationGrows(k1: real, tf: real, more: real, norm: real)
    requires k1 > 0.0 && 0.0 < tf < more && norm > 0.0
    ensures tf + k1 * norm > 0.0 && more + k1 * norm > 0.0
    ensures 0.0 < Saturated(k1, tf, norm) < Saturated(k1, more, norm)
  {
    ProductStrict(0.0, norm, k1);
    MoreOfConstant(tf, more, k1 * norm, k1 + 1.0);
  }

  lemma MoreOfConstant(tf: real, more: real, K: real, c: real)
    requires 0.0 < tf < more && K > 0.0 && c > 0.0
    ensures 0.0 < (tf * c) / (tf + K) < (more * c) / (more + K)
  {
    LargerDivisor(K, tf + K, more + K);
    ShareOf(tf, K, c);
    ShareOf(more, K, c);
    ProductStrict(1.0 - K / (tf + K), 1.0 - K / (more + K), c);
    ProductStrict(0.0, tf, c);
    QuotientPositive(tf * c, tf + K);
  }

  /** In a document of mean length the length plays no part. */
  lemma MeanLengthIsNeutral(w: Weights, tf: real, mean: real)
    requires w.k1 >= 0.0 && 0.0 <= w.b <= 1.0 && tf > 0.0 && mean > 0.0
    ensures tf + w.k1 > 0.0 && LengthNorm(w, mean, mean) == 1.0
    ensures Saturated(w.k1, tf, LengthNorm(w, mean, mean)) == (tf * (w.k1 + 1.0)) / (tf + w.k1)
  {
    hide LengthNorm;
    NormGrows(w, mean, mean, mean);
  }

  /** Both documents hold the same of the query terms, each as often as the other. */
  ghost predicate SameFrequencies(a: Document, b: Document, query: seq<string>) {
    forall t :: t in query ==>
                  (t in a.terms <==> t in b.terms) && (t in a.terms ==> a.terms[t].frequency == b.terms[t].frequency)
  }

  /** The one holds each query term at least as often as the other, and one of them more often. */
  ghost predicate MoreFrequent(a: Document, b: Document, query: seq<string>) {
    && (forall t :: t in query && t in b.terms ==> t in a.terms && a.terms[t].frequency >= b.terms[t].frequency)
    && exists t :: t in query && t in a.terms
                   && (t !in b.terms || a.terms[t].frequency > b.terms[t].frequency)
  }

  /** A sum grows with its summands. */
  lemma {:induction false} SumsOrdered(a: seq<real>, b: seq<real>)
    requires |a| == |b| && forall i :: 0 <= i < |a| ==> a[i] <= b[i]
    ensures Sum(a) <= Sum(b)
    ensures (exists i :: 0 <= i < |a| && a[i] < b[i]) ==> Sum(a) < Sum(b)
  {
    if a != [] {
      var n := |a| - 1;
      SumsOrdered(a[..n], b[..n]);
      if i :| 0 <= i < |a| && a[i] < b[i] {
        if i < n {
          assert a[..n][i] < b[..n][i];
        }
      }
    }
  }

  lemma WeightPositive(log: real -> real, w: Weights, documents: map<DocId, Document>, id: DocId, t: string)
    requires PositiveAboveOne(log) && w.k1 > 0.0 && 0.0 <= w.b <= 1.0
    requires DocumentsOk(documents) && ScoresDefined(w, documents) && id in documents
    ensures TermWeight(log, w, documents, id, t) >= 0.0
    ensures t in documents[id].terms ==> TermWeight(log, w, documents, id, t) > 0.0
  {
    if t in documents[id].terms {
      hide Saturated, Idf;
      var tf := documents[id].terms[t].frequency as real;
      NormPositive(w, documents, id);
      SaturationGrows(w.k1, tf, tf + 1.0, RelativeLength(w, documents, id));
      IdfPositive(log, documents, t);
      ProductStrict(0.0, Saturated(w.k1, tf, RelativeLength(w, documents, id)),
                    Idf(log, |documents|, |Holders(documents, t)|));
    }
  }

  lemma NormPositive(w: Weights, documents: map<DocId, Document>, id: DocId)
    requires 0.0 <= w.b <= 1.0 && id in documents && documents[id].length > 0
    ensures |documents| > 0 && LengthSum(documents) > 0
    ensures RelativeLength(w, documents, id) > 0.0
  {
    MeanIsAverage(documents, id);
    NormGrows(w, documents[id].length as real, documents[id].length as real, MeanLength(documents));
  }

  lemma LongerNorm(w: Weights, documents: map<DocId, Document>, short: DocId, long: DocId)
    requires 0.0 < w.b <= 1.0 && short in documents && long in documents
    requires 0 < documents[short].length < documents[long].length
    ensures |documents| > 0 && LengthSum(documents) > 0
    ensures 0.0 < RelativeLength(w, documents, short) < RelativeLength(w, documents, long)
  {
    MeanIsAverage(documents, short);
    NormGrows(w, documents[short].length as real, documents[long].length as real, MeanLength(documents));
  }

  lemma LongerWeighsLess(log: real -> real, w: Weights, documents: map<DocId, Document>, short: DocId, long: DocId,
                         t: string)
    requires PositiveAboveOne(log) && w.k1 > 0.0 && 0.0 < w.b <= 1.0
    requires DocumentsOk(documents) && ScoresDefined(w, documents) && short in documents && long in documents
    requires documents[short].length < documents[long].length
    requires t in documents[short].terms && t in documents[long].terms
    requires documents[short].terms[t].frequency == documents[long].terms[t].frequency
    ensures TermWeight(log, w, documents, long, t) < TermWeight(log, w, documents, short, t)
  {
    hide Saturated, Idf;
    var tf := documents[short].terms[t].frequency as real;
    LongerNorm(w, documents, short, long);
    IdfPositive(log, documents, t);
    FallingWeight(Idf(log, |documents|, |Holders(documents, t)|), w.k1, tf, RelativeLength(w, documents, short),
                  RelativeLength(w, documents, long));
  }

  lemma FallingWeight(idf: real, k1: real, tf: real, norm: real, more: real)
    requires idf > 0.0 && k1 > 0.0 && tf > 0.0 && 0.0 < norm < more
    ensures tf + k1 * norm != 0.0 && tf + k1 * more != 0.0
    ensures idf * Saturated(k1, tf, more) < idf * Saturated(k1, tf, norm)
  {
    SaturationFalls(k1, tf, norm, more);
    ProductStrict(Saturated(k1, tf, more), Saturated(k1, tf, norm), idf);
  }

  lemma MoreOftenWeighsMore(log: real -> real, w: Weights, documents: map<DocId, Document>, less: DocId, more: DocId,
                            t: string)
    requires PositiveAboveOne(log) && w.k1 > 0.0 && 0.0 <= w.b <= 1.0
    requires DocumentsOk(documents) && ScoresDefined(w, documents) && less in documents && more in documents
    requires documents[less].length == documents[more].length
    requires t in documents[less].terms && t in documents[more].terms
    requires documents[less].terms[t].frequency < documents[more].terms[t].frequency
    ensures TermWeight(log, w, documents, less, t) < TermWeight(log, w, documents, more, t)
  {
    hide Saturated, Idf;
    var few, many := documents[less].terms[t].frequency as real, documents[more].terms[t].frequency as real;
    var norm := RelativeLength(w, documents, less);
    NormPositive(w, documents, less);
    assert RelativeLength(w, documents, more) == norm;
    SaturationGrows(w.k1, few, many, norm);
    IdfPositive(log, documents, t);
    ProductStrict(Saturated(w.k1, few, norm), Saturated(w.k1, many, norm),
                  Idf(log, |documents|, |Holders(documents, t)|));
  }

  /** Of two documents that hold the query terms equally often, and at least one of them, the longer one scores
      strictly lower. */
  lemma LongerScoresLower(log: real -> real, w: Weights, documents: map<DocId, Document>, query: seq<string>,
                          short: DocId, long: DocId)
    requires PositiveAboveOne(log) && w.k1 > 0.0 && 0.0 < w.b <= 1.0
    requires DocumentsOk(documents) && ScoresDefined(w, documents) && short in documents && long in documents
    requires documents[short].length < documents[long].length
    requires SameFrequencies(documents[short], documents[long], query)
    requires exists t :: t in query && t in documents[short].terms
    ensures Score(log, w, documents, long, query) < Score(log, w, documents, short, query)
  {
    hide TermWeight;
    var a := seq(|query|, i requires 0 <= i < |query| => TermWeight(log, w, documents, long, query[i]));
    var b := seq(|query|, i requires 0 <= i < |query| => TermWeight(log, w, documents, short, query[i]));
    forall i | 0 <= i < |query|
      ensures a[i] <= b[i]
      ensures query[i] in documents[short].terms ==> a[i] < b[i]
    {
      assert query[i] in query;
      if query[i] in documents[short].terms {
        LongerWeighsLess(log, w, documents, short, long, query[i]);
      } else {
        AbsentWeighsNothing(log, w, documents, long, query[i]);
        AbsentWeighsNothing(log, w, documents, short, query[i]);
      }
    }
    var t :| t in query && t in documents[short].terms;
    var j :| 0 <= j < |query| && query[j] == t;
    assert a[j] < b[j];
    SumsOrdered(a, b);
  }

  lemma AbsentWeighsNothing(log: real -> real, w: Weights, documents: map<DocId, Document>, id: DocId, t: string)
    requires id in documents && t !in documents[id].terms
    ensures TermWeight(log, w, documents, id, t) == 0.0
  {
  }

  /** Of two documents of the same length the one that holds the query terms more often scores strictly higher. */
  lemma MoreFrequentScoresHigher(log: real -> real, w: Weights, documents: map<DocId, Document>, query: seq<string>,
                                 less: DocId, more: DocId)
    requires PositiveAboveOne(log) && w.k1 > 0.0 && 0.0 <= w.b <= 1.0
    requires DocumentsOk(documents) && ScoresDefined(w, documents) && less in documents && more in documents
    requires documents[less].length == documents[more].length
    requires MoreFrequent(documents[more], documents[less], query)
    ensures Score(log, w, documents, less, query) < Score(log, w, documents, more, query)
  {
    hide TermWeight;
    var a := seq(|query|, i requires 0 <= i < |query| => TermWeight(log, w, documents, less, query[i]));
    var b := seq(|query|, i requires 0 <= i < |query| => TermWeight(log, w, documents, more, query[i]));
    forall i | 0 <= i < |query|
      ensures a[i] <= b[i]
      ensures query[i] in documents[more].terms
              && (query[i] !in documents[less].terms
                  || documents[more].terms[query[i]].frequency > documents[less].terms[query[i]].frequency) ==>
                a[i] < b[i]
    {
      assert query[i] in query;
      WeightOrdered(log, w, documents, less, more, query[i]);
    }
    var t :| t in query && t in documents[more].terms
             && (t !in documents[less].terms
                 || documents[more].terms[t].frequency > documents[less].terms[t].frequency);
    var j :| 0 <= j < |query| && query[j] == t;
    assert a[j] < b[j];
    SumsOrdered(a, b);
  }

  lemma WeightOrdered(log: real -> real, w: Weights, documents: map<DocId, Document>, less: DocId, more: DocId,
                      t: string)
    requires PositiveAboveOne(log) && w.k1 > 0.0 && 0.0 <= w.b <= 1.0
    requires DocumentsOk(documents) && ScoresDefined(w, documents) && less in documents && more in documents
    requires documents[less].length == documents[more].length
    requires t in documents[less].terms ==>
               t in documents[more].terms && documents[more].terms[t].frequency >= documents[less].terms[t].frequency
    ensures TermWeight(log, w, documents, less, t) <= TermWeight(log, w, documents, more, t)
    ensures t in documents[more].terms
            && (t !in documents[less].terms || documents[more].terms[t].frequency > documents[less].terms[t].frequency)
            ==> TermWeight(log, w, documents, less, t) < TermWeight(log, w, documents, more, t)
  {
    hide TermWeight;
    if t !in documents[less].terms {
      AbsentWeighsNothing(log, w, documents, less, t);
      WeightPositive(log, w, documents, more, t);
    } else if documents[more].terms[t].frequency > documents[less].terms[t].frequency {
      MoreOftenWeighsMore(log, w, documents, less, more, t);
    } else {
      SameWeight(log, w, documents, less, more, t);
    }
  }

  lemma SameWeight(log: real -> real, w: Weights, documents: map<DocId, Document>, a: DocId, b: DocId, t: string)
    requires DocumentsOk(documents) && ScoresDefined(w, documents) && a in documents && b in documents
    requires documents[a].length == documents[b].length
    requires t in documents[a].terms && t in documents[b].terms
    requires documents[a].terms[t].frequency == documents[b].terms[t].frequency
    ensures TermWeight(log, w, documents, a, t) == TermWeight(log, w, documents, b, t)
  {
  }

  /** A term that fewer documents hold weighs more. */
  lemma RarerWeighsMore(log: real -> real, w: Weights, documents: map<DocId, Document>, id: DocId, rare: string,
                        common: string)
    requires w.k1 > 0.0 && 0.0 <= w.b <= 1.0 && forall x, y :: 1.0 < x < y ==> log(x) < log(y)
    requires DocumentsOk(documents) && ScoresDefined(w, documents) && id in documents
    requires rare in documents[id].terms && common in documents[id].terms
    requires documents[id].terms[rare].frequency == documents[id].terms[common].frequency
    requires |Holders(documents, rare)| < |Holders(documents, common)|
    ensures TermWeight(log, w, documents, id, common) < TermWeight(log, w, documents, id, rare)
  {
    var n, a, b := |documents|, |Holders(documents, rare)|, |Holders(documents, common)|;
    SubsetSize(Holders(documents, common), documents.Keys);
    assert |documents.Keys| == n;
    OddsFall(n as real, a as real, b as real);
    var tf := documents[id].terms[rare].frequency as real;
    NormPositive(w, documents, id);
    SaturationGrows(w.k1, tf, tf + 1.0, RelativeLength(w, documents, id));
    ProductStrict(Idf(log, n, b), Idf(log, n, a), Saturated(w.k1, tf, RelativeLength(w, documents, id)));
  }

  lemma OddsFall(n: real, a: real, b: real)
    requires 0.0 <= a < b <= n
    ensures 1.0 < (n - b + 0.5) / (b + 0.5) + 1.0 < (n - a + 0.5) / (a + 0.5) + 1.0
  {
    QuotientPositive(n - b + 0.5, b + 0.5);
    var p, q := n - a + 0.5, n - b + 0.5;
    ProductStrict(q, p, b + 0.5);
    ProductMonotone(a + 0.5, b + 0.5, q);
    QuotientsOrdered(p, a + 0.5, q, b + 0.5);
  }
}
