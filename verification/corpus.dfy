/** The corpus of all documents' chunks (`useDocumentChunking` and
    `useAllDocumentsChunking` in src/hooks/useDocumentChunking.ts, without
    the memoisation). */
module Corpus {
  import opened Wrappers
  import opened Seqs
  import opened ParagraphIds
  import opened Chunking

  /** `Doc`, keeping the fields chunking reads; `content` is optional. */
  datatype Doc = Doc(id: string, title: string, content: Option<string>)

  /** `useDocumentChunking`: missing content is falsy, so it gives no
      chunks, exactly as the empty string does. */
  function DocumentChunks(d: Doc): (r: seq<Chunk>)
    ensures d.content.None? ==> r == []
  {
    ChunkDocument(d.id, d.title, d.content.GetOr([]))
  }

  /** The chunks of `docs`, document by document. */
  function CorpusOf(docs: seq<Doc>): seq<Chunk>
    decreases |docs|
  {
    if docs == [] then [] else CorpusOf(docs[..|docs| - 1]) + DocumentChunks(docs[|docs| - 1])
  }

  /** `useAllDocumentsChunking`: one `push(...chunks)` per document. */
  method AllDocumentsChunking(documents: seq<Doc>) returns (all: seq<Chunk>)
    ensures all == CorpusOf(documents)
    ensures |all| == TotalChunks(documents)
  {
    all := [];
    var i := 0;
    while i < |documents|
      invariant 0 <= i <= |documents|
      invariant all == CorpusOf(documents[..i])
    {
      var chunks := DocumentChunks(documents[i]);
      all := all + chunks;
      assert documents[..i + 1][..i] == documents[..i];
      i := i + 1;
    }
    assert documents[..i] == documents;
    CorpusLength(documents);
  }

  /** The sum of the documents' chunk counts. */
  function TotalChunks(docs: seq<Doc>): nat
    decreases |docs|
  {
    if docs == [] then 0 else |DocumentChunks(docs[0])| + TotalChunks(docs[1..])
  }

  lemma {:induction false} TotalChunksSnoc(docs: seq<Doc>, d: Doc)
    ensures TotalChunks(docs + [d]) == TotalChunks(docs) + |DocumentChunks(d)|
    decreases |docs|
  {
    if docs == [] {
      assert [] + [d] == [d];
      assert [d][1..] == [];
    } else {
      assert (docs + [d])[1..] == docs[1..] + [d];
      TotalChunksSnoc(docs[1..], d);
    }
  }

  /** The corpus is as long as the documents' chunk counts added up; no
      documents give an empty corpus. */
  lemma {:induction false} CorpusLength(docs: seq<Doc>)
    ensures |CorpusOf(docs)| == TotalChunks(docs)
    decreases |docs|
  {
    if docs != [] {
      var init := docs[..|docs| - 1];
      CorpusLength(init);
      TotalChunksSnoc(init, docs[|docs| - 1]);
      InitLast(docs);
    }
  }

  /** Where document `i`'s chunks start in the corpus. */
  function Offset(docs: seq<Doc>, i: nat): nat
    requires i <= |docs|
  {
    TotalChunks(docs[..i])
  }

  lemma CorpusPrefix(docs: seq<Doc>, i: nat)
    requires i <= |docs|
    ensures CorpusOf(docs[..i]) <= CorpusOf(docs)
    decreases |docs| - i
  {
    if i < |docs| {
      CorpusPrefix(docs[..|docs| - 1], i);
      assert docs[..|docs| - 1][..i] == docs[..i];
    } else {
      assert docs[..i] == docs;
    }
  }

  /** The corpus is the documents' chunk lists laid end to end: document
      `i`'s chunks, in their own order, fill the positions from
      `Offset(docs, i)` on, so every chunk of document `i` comes before
      every chunk of document `i + 1`. */
  lemma CorpusBlocks(docs: seq<Doc>, i: nat)
    requires i < |docs|
    ensures Offset(docs, i) + |DocumentChunks(docs[i])| == Offset(docs, i + 1) <= |CorpusOf(docs)|
    ensures CorpusOf(docs)[Offset(docs, i)..Offset(docs, i + 1)] == DocumentChunks(docs[i])
  {
    var pre := docs[..i + 1];
    assert pre[..|pre| - 1] == docs[..i];
    assert CorpusOf(pre) == CorpusOf(docs[..i]) + DocumentChunks(docs[i]);
    CorpusLength(docs[..i]);
    CorpusLength(pre);
    CorpusLength(docs);
    CorpusPrefix(docs, i + 1);
  }

  /** A corpus chunk: addressed by its own document and index, and drawn
      from one of the documents. */
  predicate FromDocs(docs: seq<Doc>, c: Chunk) {
    && c.paragraphId == ParagraphId(c.documentId, c.paragraphIndex)
    && exists j | 0 <= j < |docs| :: docs[j].id == c.documentId
  }

  predicate DistinctIds(docs: seq<Doc>) {
    forall i, j | 0 <= i < j < |docs| :: docs[i].id != docs[j].id
  }

  predicate DistinctParagraphIds(chunks: seq<Chunk>) {
    forall a, b | 0 <= a < b < |chunks| :: chunks[a].paragraphId != chunks[b].paragraphId
  }

  lemma DocumentChunksFrom(docs: seq<Doc>, j: nat)
    requires j < |docs|
    ensures var cs := DocumentChunks(docs[j]);
      && (forall a | 0 <= a < |cs| :: FromDocs(docs, cs[a]) && cs[a].documentId == docs[j].id)
      && DistinctParagraphIds(cs)
  {
    var d := docs[j];
    var cs := DocumentChunks(d);
    ChunkDocumentWellFormed(d.id, d.title, d.content.GetOr([]));
    forall a, b | 0 <= a < b < |cs| ensures cs[a].paragraphId != cs[b].paragraphId {
      if cs[a].paragraphId == cs[b].paragraphId {
        ParagraphIdIndexInjective(d.id, a, b);
      }
    }
  }

  lemma {:induction false} CorpusFrom(docs: seq<Doc>)
    ensures forall a | 0 <= a < |CorpusOf(docs)| :: FromDocs(docs, CorpusOf(docs)[a])
    decreases |docs|
  {
    if docs != [] {
      var n := |docs| - 1;
      var init := docs[..n];
      CorpusFrom(init);
      DocumentChunksFrom(docs, n);
      var pre, last := CorpusOf(init), DocumentChunks(docs[n]);
      forall a | 0 <= a < |pre| + |last| ensures FromDocs(docs, (pre + last)[a]) {
        if a < |pre| {
          var c := pre[a];
          assert FromDocs(init, c);
          var j :| 0 <= j < |init| && init[j].id == c.documentId;
          assert docs[j] == init[j];
        } else {
          assert (pre + last)[a] == last[a - |pre|];
        }
      }
    }
  }

  /** With distinct document IDs, every paragraph address in the corpus is
      distinct. */
  lemma {:induction false} CorpusParagraphIdsDistinct(docs: seq<Doc>)
    requires DistinctIds(docs)
    ensures DistinctParagraphIds(CorpusOf(docs))
    decreases |docs|
  {
    if docs != [] {
      var n := |docs| - 1;
      var init := docs[..n];
      CorpusParagraphIdsDistinct(init);
      CorpusFrom(init);
      DocumentChunksFrom(docs, n);
      var pre, last := CorpusOf(init), DocumentChunks(docs[n]);
      var all := pre + last;
      forall a, b | 0 <= a < b < |all| ensures all[a].paragraphId != all[b].paragraphId {
        if b < |pre| {
          assert all[a] == pre[a] && all[b] == pre[b];
        } else if a >= |pre| {
          assert all[a] == last[a - |pre|] && all[b] == last[b - |pre|];
        } else {
          var c1, c2 := pre[a], last[b - |pre|];
          assert all[a] == c1 && all[b] == c2;
          assert FromDocs(init, c1);
          var j :| 0 <= j < |init| && init[j].id == c1.documentId;
          assert docs[j] == init[j];
          assert c1.documentId != c2.documentId;
          if c1.paragraphId == c2.paragraphId {
            ParagraphIdInjective(c1.documentId, c1.paragraphIndex, c2.documentId, c2.paragraphIndex);
          }
        }
      }
    }
  }
}
