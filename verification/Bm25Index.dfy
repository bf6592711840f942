/**
 The BM25 inverted index as a value: what one added and one removed document do to it, and the
 relation between the incrementally kept index and its documents.
 */
module Bm25Index {
  import opened Sequences
  import opened TextProcessing

  type DocId = nat

  datatype Term = Term(text: string, frequency: nat, positions: seq<nat>)

  datatype Document = Document(id: DocId, content: string, terms: map<string, Term>, length: nat)

  datatype Posting = Posting(doc: DocId, frequency: nat)

  datatype Index = Index(
    documents: map<DocId, Document>,
    postings: map<string, seq<Posting>>,
    documentFrequency: map<string, nat>,
    totalDocuments: nat,
    totalTerms: nat,
    avgDocLength: real)

  const EMPTY: Index := Index(map[], map[], map[], 0, 0, 0.0)

  // -------------------------------------------------------------------- documents

  ghost function PositionsOf(words: seq<string>, t: string, n: nat): seq<nat>
    requires n <= |words|
  {
    if n == 0 then []
    else if words[n-1] == t then PositionsOf(words, t, n - 1) + [n - 1]
    else PositionsOf(words, t, n - 1)
  }

  /** A term of a text: it occurs as often as it has positions. */
  ghost function TermAt(words: seq<string>, t: string, n: nat): Term
    requires n <= |words|
  {
    Term(t, |PositionsOf(words, t, n)|, PositionsOf(words, t, n))
  }

  /** The terms of the first n words. */
  ghost function TermsUpTo(words: seq<string>, n: nat): map<string, Term>
    requires n <= |words|
  {
    map t | t in words[..n] :: TermAt(words, t, n)
  }

  /** The document record of a text: every term with its frequency and its positions. */
  ghost function DocOf(id: DocId, content: string, cfg: TextConfig): Document {
    var words := Words(content, cfg);
    Document(id, content, TermsUpTo(words, |words|), |words|)
  }

  /** Exactly the words that occur have positions. */
  lemma {:induction false} PositionsExist(words: seq<string>, t: string, n: nat)
    requires n <= |words|
    ensures t in words[..n] <==> PositionsOf(words, t, n) != []
  {
    if n > 0 {
      PositionsExist(words, t, n - 1);
      assert words[..n] == words[..n-1] + [words[n-1]];
    }
  }

  /** The record of a text: its words and no others, each counted as often as it occurs, at its places. */
  lemma DocumentCounts(id: DocId, content: string, cfg: TextConfig)
    ensures var words, doc := Words(content, cfg), DocOf(id, content, cfg);
            && doc.id == id && doc.content == content && doc.length == |words|
            && (forall t :: t in doc.terms <==> t in words)
            && forall t :: t in doc.terms ==>
                             && doc.terms[t].text == t && doc.terms[t].frequency == multiset(words)[t]
                             && (forall k :: k in doc.terms[t].positions <==> 0 <= k < |words| && words[k] == t)
                             && forall i, j :: 0 <= i < j < |doc.terms[t].positions| ==>
                                                 doc.terms[t].positions[i] < doc.terms[t].positions[j]
  {
    var words := Words(content, cfg);
    assert words[..|words|] == words;
    forall t
      ensures |PositionsOf(words, t, |words|)| == multiset(words)[t]
      ensures forall k :: k in PositionsOf(words, t, |words|) <==> 0 <= k < |words| && words[k] == t
      ensures var at := PositionsOf(words, t, |words|); forall i, j :: 0 <= i < j < |at| ==> at[i] < at[j]
    {
      PositionsAre(words, t, |words|);
    }
  }

  lemma {:induction false} PositionsAre(words: seq<string>, t: string, n: nat)
    requires n <= |words|
    ensures |PositionsOf(words, t, n)| == multiset(words[..n])[t]
    ensures forall k :: k in PositionsOf(words, t, n) <==> 0 <= k < n && words[k] == t
    ensures var at := PositionsOf(words, t, n); forall i, j :: 0 <= i < j < |at| ==> at[i] < at[j]
  {
    if n > 0 {
      PositionsAre(words, t, n - 1);
      assert words[..n] == words[..n-1] + [words[n-1]];
      var before := PositionsOf(words, t, n - 1);
      forall i | 0 <= i < |before|
        ensures before[i] < n - 1
      {
        assert before[i] in before;
      }
    }
  }

  // ------------------------------------------------------------ elementary transitions

  function Average(totalTerms: nat, totalDocuments: nat): real {
    if totalDocuments > 0 then (totalTerms as real) / (totalDocuments as real) else 0.0
  }

  function PostingsOf(ix: Index, t: string): seq<Posting> {
    if t in ix.postings then ix.postings[t] else []
  }

  function FrequencyOf(ix: Index, t: string): nat {
    if t in ix.documentFrequency then ix.documentFrequency[t] else 0
  }

  ghost function WithDocument(ix: Index, doc: Document): Index {
    Index(
      ix.documents[doc.id := doc],
      map t | t in ix.postings.Keys + doc.terms.Keys ::
        if t in doc.terms then PostingsOf(ix, t) + [Posting(doc.id, doc.terms[t].frequency)] else PostingsOf(ix, t),
      map t | t in ix.documentFrequency.Keys + doc.terms.Keys ::
        FrequencyOf(ix, t) + if t in doc.terms && doc.terms[t].frequency > 0 then 1 else 0,
      ix.totalDocuments + 1,
      ix.totalTerms + doc.length,
      Average(ix.totalTerms + doc.length, ix.totalDocuments + 1))
  }

  function Without(postings: seq<Posting>, id: DocId): seq<Posting> {
    if postings == [] then []
    else
      var n := |postings| - 1;
      if postings[n].doc == id then Without(postings[..n], id) else Without(postings[..n], id) + [postings[n]]
  }

  lemma {:induction false} WithoutMembers(postings: seq<Posting>, id: DocId, p: Posting)
    ensures p in Without(postings, id) <==> p in postings && p.doc != id
  {
    if postings != [] {
      var n := |postings| - 1;
      WithoutMembers(postings[..n], id, p);
      assert postings == postings[..n] + [postings[n]];
    }
  }

  /** Terms whose last document is the one being removed disappear from both tables. */
  ghost function WithoutDocument(ix: Index, id: DocId): Index
    requires id in ix.documents
    requires ix.totalDocuments > 0 && ix.totalTerms >= ix.documents[id].length
  {
    var doc := ix.documents[id];
    Index(
      ix.documents - {id},
      map t | t in ix.postings && !(t in doc.terms && FrequencyOf(ix, t) <= 1) ::
        if t in doc.terms then Without(ix.postings[t], id) else ix.postings[t],
      map t | t in ix.documentFrequency && !(t in doc.terms && ix.documentFrequency[t] <= 1) ::
        if t in doc.terms then ix.documentFrequency[t] - 1 else ix.documentFrequency[t],
      ix.totalDocuments - 1,
      ix.totalTerms - doc.length,
      Average(ix.totalTerms - doc.length, ix.totalDocuments - 1))
  }

  // ----------------------------------------------------- the index mirrors its documents

  /** The documents a term occurs in. */
  ghost function Holders(documents: map<DocId, Document>, t: string): set<DocId> {
    set id | id in documents && t in documents[id].terms
  }

  ghost function LengthSum(documents: map<DocId, Document>): nat
    decreases |documents|
  {
    if documents == map[] then 0
    else
      var id :| id in documents;
      documents[id].length + LengthSum(documents - {id})
  }

  ghost predicate WellFormed(documents: map<DocId, Document>, cfg: TextConfig) {
    forall id :: id in documents ==>
                   documents[id] == DocOf(id, documents[id].content, cfg) && documents[id].length > 0
  }

  /** The posting list of a term holds one entry, with the right frequency, for each of its documents. */
  ghost predicate PostingsMirror(documents: map<DocId, Document>, t: string, postings: seq<Posting>) {
    && OnePerDocument(postings)
    && (forall p :: p in postings <==>
                      p.doc in Holders(documents, t) && p.frequency == documents[p.doc].terms[t].frequency)
  }

  /** Both tables know exactly the terms that occur, and agree with the documents on each. */
  ghost predicate TermMirror(ix: Index, t: string) {
    && (t in ix.postings <==> Holders(ix.documents, t) != {})
    && (t in ix.documentFrequency <==> t in ix.postings)
    && (t in ix.postings ==>
          && PostingsMirror(ix.documents, t, ix.postings[t])
          && t in ix.documentFrequency && ix.documentFrequency[t] == |Holders(ix.documents, t)|)
  }

  ghost predicate TotalsMirror(ix: Index) {
    && ix.totalDocuments == |ix.documents|
    && ix.totalTerms == LengthSum(ix.documents)
    && ix.avgDocLength == Average(ix.totalTerms, ix.totalDocuments)
  }

  /** Everything the index keeps is determined by its documents, up to the order of posting lists. */
  ghost predicate Mirrors(ix: Index, cfg: TextConfig) {
    && WellFormed(ix.documents, cfg)
    && (forall t :: TermMirror(ix, t))
    && TotalsMirror(ix)
  }

  /** The sum of lengths does not depend on the order in which documents are picked. */
  lemma {:induction false} LengthSumPick(documents: map<DocId, Document>, id: DocId)
    requires id in documents
    ensures LengthSum(documents) == documents[id].length + LengthSum(documents - {id})
    decreases |documents|
  {
    var first :| first in documents && LengthSum(documents) == documents[first].length + LengthSum(documents - {first});
    if first != id {
      LengthSumPick(documents - {first}, id);
      LengthSumPick(documents - {id}, first);
      assert documents - {first} - {id} == documents - {id} - {first};
    }
  }

  lemma HoldersAdded(documents: map<DocId, Document>, doc: Document, t: string)
    requires doc.id !in documents
    ensures var after := documents[doc.id := doc];
            Holders(after, t) == Holders(documents, t) + if t in doc.terms then {doc.id} else {}
  {
  }

  lemma DocTermsPositive(id: DocId, content: string, cfg: TextConfig, t: string)
    requires t in DocOf(id, content, cfg).terms
    ensures DocOf(id, content, cfg).terms[t].frequency > 0
  {
    var words := Words(content, cfg);
    PositionsExist(words, t, |words|);
  }

  lemma AddKeepsTerm(ix: Index, doc: Document, t: string)
    requires TermMirror(ix, t)
    requires doc.id !in ix.documents
    requires t in doc.terms ==> doc.terms[t].frequency > 0
    ensures TermMirror(WithDocument(ix, doc), t)
  {
    HoldersAdded(ix.documents, doc, t);
    if t in doc.terms {
      PostingAppended(ix, doc, t);
    }
  }

  /** The posting list of a term that the new document holds. */
  lemma PostingAppended(ix: Index, doc: Document, t: string)
    requires TermMirror(ix, t)
    requires doc.id !in ix.documents && t in doc.terms && doc.terms[t].frequency > 0
    ensures PostingsMirror(ix.documents[doc.id := doc], t,
            PostingsOf(ix, t) + [Posting(doc.id, doc.terms[t].frequency)])
  {
    var was := PostingsOf(ix, t);
    HoldersAdded(ix.documents, doc, t);
    forall i | 0 <= i < |was|
      ensures was[i].doc != doc.id
    {
      assert was[i] in was;
    }
  }

  lemma LengthSumAdd(documents: map<DocId, Document>, doc: Document)
    requires doc.id !in documents
    ensures var after := documents[doc.id := doc];
            |after| == |documents| + 1 && LengthSum(after) == doc.length + LengthSum(documents)
  {
    var after := documents[doc.id := doc];
    LengthSumPick(after, doc.id);
    assert after - {doc.id} == documents;
  }

  lemma AddKeepsTotals(ix: Index, doc: Document)
    requires TotalsMirror(ix) && doc.id !in ix.documents
    ensures TotalsMirror(WithDocument(ix, doc))
  {
    LengthSumAdd(ix.documents, doc);
  }

  /** Adding a new document to a mirroring index gives a mirroring index. */
  lemma AddKeepsMirror(ix: Index, id: DocId, content: string, cfg: TextConfig)
    requires Mirrors(ix, cfg)
    requires id !in ix.documents && Words(content, cfg) != []
    ensures Mirrors(WithDocument(ix, DocOf(id, content, cfg)), cfg)
  {
    var doc := DocOf(id, content, cfg);
    forall t
      ensures TermMirror(WithDocument(ix, doc), t)
    {
      assert TermMirror(ix, t);
      if t in doc.terms {
        DocTermsPositive(id, content, cfg, t);
      }
      AddKeepsTerm(ix, doc, t);
    }
    AddKeepsTotals(ix, doc);
  }

  lemma HoldersRemoved(documents: map<DocId, Document>, id: DocId, t: string)
    ensures Holders(documents - {id}, t) == Holders(documents, t) - {id}
  {
  }

  ghost predicate OnePerDocument(postings: seq<Posting>) {
    forall i, j :: 0 <= i < j < |postings| ==> postings[i].doc != postings[j].doc
  }

  lemma {:induction false} WithoutDistinct(postings: seq<Posting>, id: DocId)
    requires OnePerDocument(postings)
    ensures OnePerDocument(Without(postings, id))
  {
    if postings != [] {
      var n := |postings| - 1;
      WithoutDistinct(postings[..n], id);
      var front := Without(postings[..n], id);
      forall i | 0 <= i < |front|
        ensures front[i].doc != postings[n].doc
      {
        WithoutMembers(postings[..n], id, front[i]);
        assert front[i] in postings[..n];
        var j :| 0 <= j < n && postings[..n][j] == front[i];
        assert postings[j].doc != postings[n].doc;
      }
    }
  }

  lemma HolderCount(documents: map<DocId, Document>, id: DocId, t: string)
    requires id in documents
    ensures var held := Holders(documents, t);
            && |held - {id}| == |held| - (if t in documents[id].terms then 1 else 0)
            && (held - {id} == {} <==> |held - {id}| == 0)
  {
    var held := Holders(documents, t);
    if t in documents[id].terms {
      assert held == held - {id} + {id};
    } else {
      assert held - {id} == held;
    }
  }

  /** The counters never run below what a removal takes away. */
  lemma RemoveIsDefined(ix: Index, id: DocId)
    requires TotalsMirror(ix)
    requires id in ix.documents
    ensures ix.totalDocuments > 0 && ix.totalTerms >= ix.documents[id].length
  {
    LengthSumPick(ix.documents, id);
    SubsetSize({id}, ix.documents.Keys);
  }

  lemma RemoveKeepsTerm(ix: Index, id: DocId, t: string)
    requires TermMirror(ix, t)
    requires id in ix.documents
    requires ix.totalDocuments > 0 && ix.totalTerms >= ix.documents[id].length
    ensures TermMirror(WithoutDocument(ix, id), t)
    ensures t in ix.documents[id].terms ==>
            t in ix.postings && t in ix.documentFrequency && ix.documentFrequency[t] >= 1
  {
    HoldersRemoved(ix.documents, id, t);
    HolderCount(ix.documents, id, t);
    if t in ix.postings {
      WithoutDistinct(ix.postings[t], id);
      forall p
        ensures p in Without(ix.postings[t], id) <==> p in ix.postings[t] && p.doc != id
      {
        WithoutMembers(ix.postings[t], id, p);
      }
    }
    if t in ix.documents[id].terms {
      assert id in Holders(ix.documents, t);
    }
  }

  lemma RemoveKeepsTotals(ix: Index, id: DocId)
    requires TotalsMirror(ix) && id in ix.documents
    requires ix.totalDocuments > 0 && ix.totalTerms >= ix.documents[id].length
    ensures TotalsMirror(WithoutDocument(ix, id))
  {
    LengthSumPick(ix.documents, id);
  }

  /** Removing a document from a mirroring index gives a mirroring index. */
  lemma RemoveKeepsMirror(ix: Index, id: DocId, cfg: TextConfig)
    requires Mirrors(ix, cfg)
    requires id in ix.documents
    ensures ix.totalDocuments > 0 && ix.totalTerms >= ix.documents[id].length
    ensures Mirrors(WithoutDocument(ix, id), cfg)
  {
    RemoveIsDefined(ix, id);
    forall t
      ensures TermMirror(WithoutDocument(ix, id), t)
    {
      assert TermMirror(ix, t);
      RemoveKeepsTerm(ix, id, t);
    }
    RemoveKeepsTotals(ix, id);
  }

  // ------------------------------------------------------------- same up to order

  /** Equal in everything but the order within posting lists. */
  ghost predicate SameUpToOrder(a: Index, b: Index) {
    && a.documents == b.documents
    && a.postings.Keys == b.postings.Keys
    && (forall t :: t in a.postings ==> multiset(a.postings[t]) == multiset(b.postings[t]))
    && a.documentFrequency == b.documentFrequency
    && a.totalDocuments == b.totalDocuments
    && a.totalTerms == b.totalTerms
    && a.avgDocLength == b.avgDocLength
  }

  lemma {:induction false} DistinctSameElements<T>(a: seq<T>, b: seq<T>)
    requires NoDup(a) && NoDup(b)
    requires forall x :: x in a <==> x in b
    ensures multiset(a) == multiset(b)
  {
    forall x
      ensures multiset(a)[x] == multiset(b)[x]
    {
      NoDupCount(a, x);
      NoDupCount(b, x);
      assert x in multiset(a) <==> x in a;
      assert x in multiset(b) <==> x in b;
    }
  }

  lemma TermsAgree(a: Index, b: Index, t: string)
    requires TermMirror(a, t) && TermMirror(b, t)
    requires a.documents == b.documents
    ensures t in a.postings <==> t in b.postings
    ensures t in a.documentFrequency <==> t in b.documentFrequency
    ensures t in a.documentFrequency ==> a.documentFrequency[t] == b.documentFrequency[t]
    ensures t in a.postings ==> multiset(a.postings[t]) == multiset(b.postings[t])
  {
    if t in a.postings {
      DistinctSameElements(a.postings[t], b.postings[t]);
    }
  }

  /** Two mirroring indexes of the same documents are the same up to order. */
  lemma MirrorsAgree(a: Index, b: Index)
    requires forall t :: TermMirror(a, t)
    requires forall t :: TermMirror(b, t)
    requires TotalsMirror(a) && TotalsMirror(b)
    requires a.documents == b.documents
    ensures SameUpToOrder(a, b)
  {
    forall t
      ensures t in a.postings <==> t in b.postings
      ensures t in a.documentFrequency <==> t in b.documentFrequency
      ensures t in a.documentFrequency ==> a.documentFrequency[t] == b.documentFrequency[t]
      ensures t in a.postings ==> multiset(a.postings[t]) == multiset(b.postings[t])
    {
      assert TermMirror(a, t) && TermMirror(b, t);
      TermsAgree(a, b, t);
    }
  }

  // ---------------------------------------------------------------------- runs

  datatype Op = Add(id: DocId, content: string) | Remove(id: DocId) | Update(id: DocId, content: string)

  ghost function Added(ix: Index, id: DocId, content: string, cfg: TextConfig): Index {
    if id in ix.documents || Words(content, cfg) == [] then ix
    else WithDocument(ix, DocOf(id, content, cfg))
  }

  ghost function Removed(ix: Index, id: DocId): Index {
    if id in ix.documents && ix.totalDocuments > 0 && ix.totalTerms >= ix.documents[id].length
    then WithoutDocument(ix, id)
    else ix
  }

  /** An update removes first and adds afterwards, so new content without terms deletes the document. */
  ghost function Step(ix: Index, op: Op, cfg: TextConfig): Index {
    match op
    case Add(id, content) => Added(ix, id, content, cfg)
    case Remove(id) => Removed(ix, id)
    case Update(id, content) => Added(Removed(ix, id), id, content, cfg)
  }

  ghost function Run(ops: seq<Op>, cfg: TextConfig): Index {
    if ops == [] then EMPTY else Step(Run(ops[..|ops|-1], cfg), ops[|ops|-1], cfg)
  }

  /** What an operation means for the stored texts alone. */
  ghost function TextStep(texts: map<DocId, string>, op: Op, cfg: TextConfig): map<DocId, string> {
    match op
    case Add(id, content) => if id in texts || Words(content, cfg) == [] then texts else texts[id := content]
    case Remove(id) => texts - {id}
    case Update(id, content) => if Words(content, cfg) == [] then texts - {id} else texts[id := content]
  }

  ghost function Survivors(ops: seq<Op>, cfg: TextConfig): map<DocId, string> {
    if ops == [] then map[] else TextStep(Survivors(ops[..|ops|-1], cfg), ops[|ops|-1], cfg)
  }

  ghost function Texts(documents: map<DocId, Document>): map<DocId, string> {
    map id | id in documents :: documents[id].content
  }

  lemma StepKeepsMirror(ix: Index, op: Op, cfg: TextConfig)
    requires Mirrors(ix, cfg)
    ensures Mirrors(Step(ix, op, cfg), cfg)
  {
    if !op.Add? && op.id in ix.documents {
      RemoveKeepsMirror(ix, op.id, cfg);
    }
    if !op.Remove? {
      var base := if op.Update? then Removed(ix, op.id) else ix;
      if op.id !in base.documents && Words(op.content, cfg) != [] {
        AddKeepsMirror(base, op.id, op.content, cfg);
      }
    }
  }

  lemma EmptyMirrors(cfg: TextConfig)
    ensures Mirrors(EMPTY, cfg)
  {
  }

  lemma AddedTexts(ix: Index, id: DocId, content: string, cfg: TextConfig)
    ensures Texts(Added(ix, id, content, cfg).documents) == TextStep(Texts(ix.documents), Add(id, content), cfg)
  {
  }

  lemma RemovedTexts(ix: Index, id: DocId)
    requires TotalsMirror(ix)
    ensures Texts(Removed(ix, id).documents) == Texts(ix.documents) - {id}
  {
    if id in ix.documents {
      RemoveIsDefined(ix, id);
    }
  }

  /** One step changes the stored texts as the operation says. */
  lemma StepTexts(ix: Index, op: Op, cfg: TextConfig)
    requires TotalsMirror(ix)
    ensures Texts(Step(ix, op, cfg).documents) == TextStep(Texts(ix.documents), op, cfg)
  {
    match op {
      case Add(id, content) => AddedTexts(ix, id, content, cfg);
      case Remove(id) => RemovedTexts(ix, id);
      case Update(id, content) =>
        RemovedTexts(ix, id);
        AddedTexts(Removed(ix, id), id, content, cfg);
        var texts := Texts(ix.documents);
        assert (texts - {id})[id := content] == texts[id := content];
    }
  }

  /** After every run the index mirrors its documents, and these are exactly the surviving texts. */
  lemma {:induction false} RunMirrors(ops: seq<Op>, cfg: TextConfig)
    ensures Mirrors(Run(ops, cfg), cfg)
    ensures Texts(Run(ops, cfg).documents) == Survivors(ops, cfg)
  {
    if ops == [] {
      EmptyMirrors(cfg);
    } else {
      var before := ops[..|ops|-1];
      RunMirrors(before, cfg);
      StepKeepsMirror(Run(before, cfg), ops[|ops|-1], cfg);
      StepTexts(Run(before, cfg), ops[|ops|-1], cfg);
    }
  }

  /** Indexing texts one after the other, from nothing. */
  ghost function FromScratch(texts: map<DocId, string>, order: seq<DocId>, cfg: TextConfig): Index
    requires forall id :: id in order ==> id in texts
  {
    if order == [] then EMPTY
    else Added(FromScratch(texts, order[..|order|-1], cfg), order[|order|-1], texts[order[|order|-1]], cfg)
  }

  lemma {:induction false} FromScratchMirrors(texts: map<DocId, string>, order: seq<DocId>, cfg: TextConfig)
    requires NoDup(order)
    requires forall id :: id in order ==> id in texts && Words(texts[id], cfg) != []
    ensures Mirrors(FromScratch(texts, order, cfg), cfg)
    ensures var documents := FromScratch(texts, order, cfg).documents;
            (forall id :: id in documents <==> id in order) && forall id :: id in order ==>
                documents[id].content == texts[id]
  {
    if order == [] {
      EmptyMirrors(cfg);
    } else {
      var n := |order| - 1;
      assert order == order[..n] + [order[n]];
      FromScratchMirrors(texts, order[..n], cfg);
      AddKeepsMirror(FromScratch(texts, order[..n], cfg), order[n], texts[order[n]], cfg);
    }
  }

  /** The text of a document determines its record. */
  lemma SameTextsSameDocuments(a: map<DocId, Document>, b: map<DocId, Document>, cfg: TextConfig)
    requires WellFormed(a, cfg) && WellFormed(b, cfg)
    requires Texts(a) == Texts(b)
    ensures a == b
  {
    assert a.Keys == Texts(a).Keys && b.Keys == Texts(b).Keys;
    forall id | id in a
      ensures a[id] == b[id]
    {
      assert Texts(a)[id] == Texts(b)[id];
    }
  }

  /** A mirroring index is what its own texts, indexed in any order, would build. */
  lemma MirrorIsFromScratch(ix: Index, order: seq<DocId>, cfg: TextConfig)
    requires Mirrors(ix, cfg)
    requires NoDup(order) && forall id :: id in order <==> id in ix.documents
    ensures var scratch := FromScratch(Texts(ix.documents), order, cfg);
            scratch.documents == ix.documents && SameUpToOrder(scratch, ix)
  {
    hide TermMirror, TotalsMirror, Words, DocOf;
    var texts := Texts(ix.documents);
    SurvivorsHaveWords(ix.documents, cfg);
    FromScratchMirrors(texts, order, cfg);
    var scratch := FromScratch(texts, order, cfg);
    assert Texts(scratch.documents) == texts;
    SameTextsSameDocuments(ix.documents, scratch.documents, cfg);
    MirrorsAgree(scratch, ix);
  }

  /** Every run of additions, removals and updates leaves what indexing only the surviving texts,
      in any order, would have built. */
  lemma RunEqualsFromScratch(ops: seq<Op>, order: seq<DocId>, cfg: TextConfig)
    requires NoDup(order)
    requires forall id :: id in order <==> id in Survivors(ops, cfg)
    ensures SameUpToOrder(FromScratch(Survivors(ops, cfg), order, cfg), Run(ops, cfg))
  {
    RunMirrors(ops, cfg);
    assert Texts(Run(ops, cfg).documents).Keys == Run(ops, cfg).documents.Keys;
    MirrorIsFromScratch(Run(ops, cfg), order, cfg);
  }

  lemma SurvivorsHaveWords(documents: map<DocId, Document>, cfg: TextConfig)
    requires WellFormed(documents, cfg)
    ensures forall id :: id in Texts(documents) ==> Words(Texts(documents)[id], cfg) != []
  {
    forall id | id in documents
      ensures Words(documents[id].content, cfg) != []
    {
      assert documents[id].length == |Words(documents[id].content, cfg)|;
    }
  }

  /** Updating an indexed document to text without any term is reported as an error, and the old
      document is gone all the same. */
  lemma UpdateWithoutTermsDeletes(ix: Index, id: DocId, content: string, cfg: TextConfig)
    requires Mirrors(ix, cfg) && id in ix.documents
    ensures id in Step(ix, Update(id, content), cfg).documents <==> Words(content, cfg) != []
  {
    RemoveIsDefined(ix, id);
  }
}
