/** Splitting one Markdown document into paragraph chunks (`chunkDocument`
    in src/lib/rag/chunking.ts): lines are grouped at blank lines, each
    group is joined and trimmed, groups shorter than ten UTF-16 units are
    dropped, a group that is a Markdown heading sets the section title, and
    every kept group becomes a chunk with a stable address and its keywords. */
module Chunking {
  import opened Wrappers
  import opened Text
  import opened Seqs
  import opened ParagraphIds
  import opened Tokenizer

  /** `DocumentChunk`; `sectionTitle: None` stands for `undefined`. */
  datatype Chunk = Chunk(
    documentId: string,
    documentTitle: string,
    paragraphId: string,
    paragraphIndex: nat,
    sectionTitle: Option<string>,
    content: string,
    keywords: seq<string>)

  /** Paragraphs whose trimmed text is shorter than this many UTF-16 code
      units are dropped. */
  const MinLength: nat := 10

  // ---------------------------------------------------------------------
  // The heading test `/^#{1,6}\s+(.+?)$/`
  // ---------------------------------------------------------------------

  /** The number of `#` characters `s` starts with. */
  function LeadingHashes(s: string): (n: nat)
    ensures n <= |s|
    ensures forall i | 0 <= i < n :: s[i] == '#'
    ensures n == |s| || s[n] != '#'
    decreases |s|
  {
    if s == [] || s[0] != '#' then 0 else 1 + LeadingHashes(s[1..])
  }

  /** The end of the whitespace run that starts at `i`. */
  function SpaceRunEnd(s: string, i: nat): (e: nat)
    requires i <= |s|
    ensures i <= e <= |s|
    ensures forall k | i <= k < e :: IsSpace(s[k])
    ensures e == |s| || !IsSpace(s[e])
    decreases |s| - i
  {
    if i == |s| || !IsSpace(s[i]) then i else SpaceRunEnd(s, i + 1)
  }

  /** One way for the regular expression to match the whole of `s`: `k`
      hashes (1 to 6), whitespace from `k` up to `p` (at least one
      character), and a non-empty group `s[p..]` without line terminators
      (`.` does not match them and `$` is the end of the input). */
  predicate IsHeadingMatch(s: string, k: int, p: int) {
    && 1 <= k <= 6
    && k < p < |s|
    && (forall i | 0 <= i < k :: s[i] == '#')
    && (forall i | k <= i < p :: IsSpace(s[i]))
    && NoLineTerminator(s[p..])
  }

  /** The backtracking of the greedy `\s+`: try group starts `p, p-1, ...`
      down to `k + 1`, and take the first whose rest can be the group. */
  function GroupFrom(s: string, k: nat, p: nat): (r: Option<nat>)
    requires k < p <= |s|
    ensures r.Some? ==> k < r.value < |s|
    decreases p
  {
    if p < |s| && NoLineTerminator(s[p..]) then Some(p)
    else if p - 1 > k then GroupFrom(s, k, p - 1)
    else None
  }

  /** Where the captured group starts, or `None` when `s` is not a heading. */
  function HeadingStart(s: string): (r: Option<nat>)
    ensures r.Some? ==> r.value < |s|
  {
    var k := LeadingHashes(s);
    if k < 1 || k > 6 || k == |s| || !IsSpace(s[k]) then None
    else GroupFrom(s, k, SpaceRunEnd(s, k))
  }

  /** `headingMatch[1].trim()`, when the text is a heading. */
  function HeadingTitle(s: string): Option<string> {
    match HeadingStart(s)
    case Some(p) => Some(Trim(s[p..]))
    case None => None
  }

  lemma {:induction false} GroupFromSpec(s: string, k: nat, p: nat)
    requires k < p <= |s|
    ensures var r := GroupFrom(s, k, p);
      && (r.Some? ==> k < r.value <= p && r.value < |s| && NoLineTerminator(s[r.value..])
                      && forall q | r.value < q <= p :: !(q < |s| && NoLineTerminator(s[q..])))
      && (r.None? ==> forall q | k < q <= p :: !(q < |s| && NoLineTerminator(s[q..])))
    decreases p
  {
    if !(p < |s| && NoLineTerminator(s[p..])) && p - 1 > k {
      GroupFromSpec(s, k, p - 1);
    }
  }

  /** The hash count of any match is the number of leading hashes. */
  lemma MatchHashes(s: string, k: int, p: int)
    requires IsHeadingMatch(s, k, p)
    ensures k == LeadingHashes(s)
    ensures p <= SpaceRunEnd(s, k)
  {
    assert s[k] != '#' by { assert IsSpace(s[k]); }
    HashRunUnique(s, k);
  }

  lemma HashRunUnique(s: string, k: nat)
    ensures k <= |s| && (forall i | 0 <= i < k :: s[i] == '#') && (k == |s| || s[k] != '#')
            ==> k == LeadingHashes(s)
  {
  }

  /** Every match starts with the leading hashes and puts its group start
      inside the whitespace run that follows them. */
  lemma MatchesInRun(s: string)
    ensures forall k, p | 0 <= k < p <= |s| && IsHeadingMatch(s, k, p) ::
              k == LeadingHashes(s) && p <= SpaceRunEnd(s, k)
  {
    forall k, p | 0 <= k < p <= |s| && IsHeadingMatch(s, k, p)
      ensures k == LeadingHashes(s) && p <= SpaceRunEnd(s, k)
    {
      MatchHashes(s, k, p);
    }
  }

  /** Without one to six hashes followed by whitespace there is no match. */
  lemma NoHeadingMatch(s: string)
    requires var k := LeadingHashes(s); !(1 <= k <= 6 && k < |s| && IsSpace(s[k]))
    ensures forall k, p | 0 <= k < p <= |s| :: !IsHeadingMatch(s, k, p)
  {
    MatchesInRun(s);
  }

  /** After the hashes and whitespace, the group search finds the match with
      the latest group start, or reports that there is none. */
  lemma GroupSearch(s: string)
    requires var k := LeadingHashes(s); 1 <= k <= 6 && k < |s| && IsSpace(s[k])
    ensures var k := LeadingHashes(s);
      var r := GroupFrom(s, k, SpaceRunEnd(s, k));
      && (r.None? ==> forall k', q | 0 <= k' < q <= |s| :: !IsHeadingMatch(s, k', q))
      && (r.Some? ==> IsHeadingMatch(s, k, r.value)
                      && forall k', q | r.value < q <= |s| && 0 <= k' :: !IsHeadingMatch(s, k', q))
  {
    var k := LeadingHashes(s);
    var e := SpaceRunEnd(s, k);
    GroupFromSpec(s, k, e);
    MatchesInRun(s);
  }

  /** `HeadingStart` finds the match the regular expression engine reports:
      `None` exactly when no match exists, and otherwise the match whose
      whitespace run is longest (`\s+` is greedy). */
  lemma HeadingStartSpec(s: string)
    ensures HeadingStart(s).None? <==> forall k, p | 0 <= k < p <= |s| :: !IsHeadingMatch(s, k, p)
    ensures HeadingStart(s).Some? ==>
              && IsHeadingMatch(s, LeadingHashes(s), HeadingStart(s).value)
              && forall k, q | HeadingStart(s).value < q <= |s| && 0 <= k :: !IsHeadingMatch(s, k, q)
  {
    var k := LeadingHashes(s);
    if 1 <= k <= 6 && k < |s| && IsSpace(s[k]) {
      GroupSearch(s);
    } else {
      NoHeadingMatch(s);
    }
  }

  /** The section state after a kept paragraph: a heading's title replaces
      it, any other paragraph leaves it as it was. */
  function NextSection(section: Option<string>, content: string): Option<string> {
    Follow(section, HeadingTitle(content))
  }

  /** The title in force after a paragraph whose heading title is `heading`. */
  function Follow(section: Option<string>, heading: Option<string>): Option<string> {
    if heading.Some? then heading else section
  }

  // ---------------------------------------------------------------------
  // The line fold of `chunkDocument`
  // ---------------------------------------------------------------------

  /** The closure's mutable state: the chunks so far, the lines of the
      current paragraph, the current section title and the next index. */
  datatype FoldState = FoldState(
    chunks: seq<Chunk>,
    paragraph: seq<string>,
    section: Option<string>,
    index: nat)

  const Start: FoldState := FoldState([], [], None, 0)

  /** The text of a paragraph: its lines joined with `\n`, then trimmed. */
  function ParagraphText(lines: seq<string>): string {
    Trim(Join(lines))
  }

  /** `flushParagraph`. */
  function Flush(documentId: string, documentTitle: string, st: FoldState): (r: FoldState)
    ensures r.paragraph == []
  {
    if st.paragraph == [] then st
    else
      var content := ParagraphText(st.paragraph);
      if Utf16Length(content) < MinLength then st.(paragraph := [])
      else
        var section := NextSection(st.section, content);
        var chunk := Chunk(documentId, documentTitle, ParagraphId(documentId, st.index),
                           st.index, section, content, Tokenize(content));
        FoldState(st.chunks + [chunk], [], section, st.index + 1)
  }

  /** One iteration of the loop over lines: a blank line flushes, any other
      line is appended to the current paragraph untrimmed. */
  function Step(documentId: string, documentTitle: string, st: FoldState, line: string): FoldState {
    if Trim(line) == [] then Flush(documentId, documentTitle, st)
    else st.(paragraph := st.paragraph + [line])
  }

  function FoldLines(documentId: string, documentTitle: string, st: FoldState, lines: seq<string>): FoldState
    decreases |lines|
  {
    if lines == [] then st
    else FoldLines(documentId, documentTitle, Step(documentId, documentTitle, st, lines[0]), lines[1..])
  }

  /** `chunkDocument`. */
  function ChunkDocument(documentId: string, documentTitle: string, markdown: string): seq<Chunk> {
    if markdown == [] then []
    else
      var st := FoldLines(documentId, documentTitle, Start, SplitLines(markdown));
      Flush(documentId, documentTitle, st).chunks
  }

  // ---------------------------------------------------------------------
  // What every chunk satisfies
  // ---------------------------------------------------------------------

  /** Chunk number `i` of a document: its fields come from the document, its
      index and address are `i`, its keywords are its content's tokens, and
      its content is trimmed and at least `MinLength` UTF-16 units long. */
  predicate ChunkAt(documentId: string, documentTitle: string, c: Chunk, i: nat) {
    && c.documentId == documentId
    && c.documentTitle == documentTitle
    && c.paragraphIndex == i
    && c.paragraphId == ParagraphId(documentId, i)
    && c.keywords == Tokenize(c.content)
    && IsTrimmed(c.content)
    && Utf16Length(c.content) >= MinLength
  }

  /** The section title of each chunk. */
  function Sections(chunks: seq<Chunk>): (ts: seq<Option<string>>)
    ensures |ts| == |chunks|
    ensures forall j | 0 <= j < |chunks| :: ts[j] == chunks[j].sectionTitle
  {
    seq(|chunks|, j requires 0 <= j < |chunks| => chunks[j].sectionTitle)
  }

  /** The heading title of each chunk, `None` for a chunk that is not a
      heading. */
  function Headings(chunks: seq<Chunk>): (hs: seq<Option<string>>)
    ensures |hs| == |chunks|
    ensures forall j | 0 <= j < |chunks| :: hs[j] == HeadingTitle(chunks[j].content)
  {
    seq(|chunks|, j requires 0 <= j < |chunks| => HeadingTitle(chunks[j].content))
  }

  /** Each title is the heading at its position if there is one, and the
      title before it otherwise. */
  predicate Follows(titles: seq<Option<string>>, headings: seq<Option<string>>) {
    && |titles| == |headings|
    && forall i | 0 <= i < |titles| :: titles[i] == Follow(Before(titles, i), headings[i])
  }

  /** The title in force before position `i`. */
  function Before(titles: seq<Option<string>>, i: nat): Option<string>
    requires i <= |titles|
  {
    if i == 0 then None else titles[i - 1]
  }

  /** Each chunk's section title is what its own content makes of the
      section title of the chunk before it. */
  predicate SectionChain(chunks: seq<Chunk>) {
    Follows(Sections(chunks), Headings(chunks))
  }

  lemma FollowsSnoc(ts: seq<Option<string>>, hs: seq<Option<string>>, t: Option<string>, h: Option<string>)
    requires Follows(ts, hs)
    requires t == Follow(Before(ts, |ts|), h)
    ensures Follows(ts + [t], hs + [h])
  {
    var ts', hs' := ts + [t], hs + [h];
    assert forall i | 0 <= i < |ts| :: ts'[i] == ts[i] && hs'[i] == hs[i];
    assert ts'[|ts|] == t && hs'[|ts|] == h;
    forall i | 0 <= i < |ts'|
      ensures ts'[i] == Follow(Before(ts', i), hs'[i])
    {
      if i < |ts| {
        assert ts[i] == Follow(Before(ts, i), hs[i]);
        assert Before(ts', i) == Before(ts, i);
      } else {
        assert Before(ts', i) == Before(ts, |ts|);
      }
    }
  }

  /** The chunks of one document, as far as they go. */
  predicate ChunksValid(documentId: string, documentTitle: string, chunks: seq<Chunk>) {
    && (forall i | 0 <= i < |chunks| :: ChunkAt(documentId, documentTitle, chunks[i], i))
    && SectionChain(chunks)
  }

  predicate Valid(documentId: string, documentTitle: string, st: FoldState) {
    && st.index == |st.chunks|
    && ChunksValid(documentId, documentTitle, st.chunks)
    && st.section == Before(Sections(st.chunks), |st.chunks|)
  }

  lemma SnocValid(documentId: string, documentTitle: string, chunks: seq<Chunk>, c: Chunk)
    requires ChunksValid(documentId, documentTitle, chunks)
    requires ChunkAt(documentId, documentTitle, c, |chunks|)
    requires c.sectionTitle == NextSection(Before(Sections(chunks), |chunks|), c.content)
    ensures ChunksValid(documentId, documentTitle, chunks + [c])
  {
    var r := chunks + [c];
    forall i | 0 <= i < |r| ensures ChunkAt(documentId, documentTitle, r[i], i) {
      if i < |chunks| {
        assert r[i] == chunks[i];
      }
    }
    SnocChain(chunks, c);
  }

  lemma SnocChain(chunks: seq<Chunk>, c: Chunk)
    requires SectionChain(chunks)
    requires c.sectionTitle == NextSection(Before(Sections(chunks), |chunks|), c.content)
    ensures SectionChain(chunks + [c])
  {
    var r := chunks + [c];
    assert Sections(r) == Sections(chunks) + [c.sectionTitle] by {
      assert forall i | 0 <= i < |chunks| :: r[i] == chunks[i];
    }
    assert Headings(r) == Headings(chunks) + [HeadingTitle(c.content)] by {
      assert forall i | 0 <= i < |chunks| :: r[i] == chunks[i];
    }
    FollowsSnoc(Sections(chunks), Headings(chunks), c.sectionTitle, HeadingTitle(c.content));
  }

  /** A flush keeps the fold's invariant: the next index is the number of
      chunks pushed, every chunk is well formed at its position, and the
      current section title is the one the chunks lead to. */
  lemma FlushValid(documentId: string, documentTitle: string, st: FoldState)
    requires Valid(documentId, documentTitle, st)
    ensures Valid(documentId, documentTitle, Flush(documentId, documentTitle, st))
  {
    if st.paragraph != [] {
      var content := ParagraphText(st.paragraph);
      if Utf16Length(content) >= MinLength {
        TrimIsTrimmed(Join(st.paragraph));
        var section := NextSection(st.section, content);
        var c := Chunk(documentId, documentTitle, ParagraphId(documentId, st.index),
                       st.index, section, content, Tokenize(content));
        assert ChunkAt(documentId, documentTitle, c, |st.chunks|);
        SnocValid(documentId, documentTitle, st.chunks, c);
        assert Flush(documentId, documentTitle, st) == FoldState(st.chunks + [c], [], section, st.index + 1);
      }
    }
  }

  lemma {:induction false} FoldValid(documentId: string, documentTitle: string, st: FoldState, lines: seq<string>)
    requires Valid(documentId, documentTitle, st)
    ensures Valid(documentId, documentTitle, FoldLines(documentId, documentTitle, st, lines))
    decreases |lines|
  {
    if lines != [] {
      var next := Step(documentId, documentTitle, st, lines[0]);
      if Trim(lines[0]) == [] {
        FlushValid(documentId, documentTitle, st);
      }
      FoldValid(documentId, documentTitle, next, lines[1..]);
    }
  }

  /** An empty document has no chunks; every chunk of a document is well
      formed and numbered by its position, and the section titles follow the
      headings in order. */
  lemma ChunkDocumentWellFormed(documentId: string, documentTitle: string, markdown: string)
    ensures var cs := ChunkDocument(documentId, documentTitle, markdown);
      && (markdown == [] ==> cs == [])
      && (forall i | 0 <= i < |cs| :: ChunkAt(documentId, documentTitle, cs[i], i))
      && SectionChain(cs)
  {
    if markdown != [] {
      var st := FoldLines(documentId, documentTitle, Start, SplitLines(markdown));
      FoldValid(documentId, documentTitle, Start, SplitLines(markdown));
      FlushValid(documentId, documentTitle, st);
      assert ChunksValid(documentId, documentTitle, Flush(documentId, documentTitle, st).chunks);
    }
  }

  /** The position of the last `Some` at or before `i`. */
  function NearestSome<T>(xs: seq<Option<T>>, i: nat): (r: Option<nat>)
    requires i < |xs|
    ensures r.Some? ==> r.value <= i && xs[r.value].Some?
    ensures r.Some? ==> forall m | r.value < m <= i :: xs[m].None?
    ensures r.None? ==> forall m | 0 <= m <= i :: xs[m].None?
  {
    if xs[i].Some? then Some(i)
    else if i == 0 then None
    else NearestSome(xs, i - 1)
  }

  lemma {:induction false} FollowsNearest(ts: seq<Option<string>>, hs: seq<Option<string>>, i: nat)
    requires Follows(ts, hs) && i < |ts|
    ensures ts[i] == match NearestSome(hs, i) case Some(j) => hs[j] case None => None
  {
    assert ts[i] == Follow(Before(ts, i), hs[i]);
    if hs[i].None? && i > 0 {
      FollowsNearest(ts, hs, i - 1);
    }
  }

  /** In a chain, a chunk's section title is the title of the nearest heading
      chunk at or before it, and there is none when no heading comes first. */
  lemma SectionIsNearestHeading(chunks: seq<Chunk>, i: nat)
    requires SectionChain(chunks) && i < |chunks|
    ensures var hs := Headings(chunks);
      chunks[i].sectionTitle == match NearestSome(hs, i) case Some(j) => hs[j] case None => None
  {
    FollowsNearest(Sections(chunks), Headings(chunks), i);
  }

  // ---------------------------------------------------------------------
  // The paragraphs a document is cut into
  // ---------------------------------------------------------------------

  /** A line that does not end a paragraph. */
  predicate IsContentLine(line: string) {
    !AllSpace(line)
  }

  /** The maximal runs of content lines, with `p` the run in progress. */
  function BlocksFrom(p: seq<string>, lines: seq<string>): seq<seq<string>>
    decreases |lines|
  {
    var closed := if p == [] then [] else [p];
    if lines == [] then closed
    else if !IsContentLine(lines[0]) then closed + BlocksFrom([], lines[1..])
    else BlocksFrom(p + [lines[0]], lines[1..])
  }

  /** The paragraphs of a list of lines: its maximal runs of lines that are
      not blank. */
  function Blocks(lines: seq<string>): seq<seq<string>> {
    BlocksFrom([], lines)
  }

  /** A paragraph: non-empty, with no blank line. */
  predicate IsBlock(b: seq<string>) {
    b != [] && forall i | 0 <= i < |b| :: IsContentLine(b[i])
  }

  lemma FlattenSingle<T>(p: seq<T>)
    ensures Flatten(if p == [] then [] else [p]) == p
  {
    if p != [] {
      assert [p][1..] == [];
      assert Flatten([p]) == p + Flatten([]);
    }
  }

  lemma {:induction false} BlocksFromFlatten(p: seq<string>, lines: seq<string>)
    ensures Flatten(BlocksFrom(p, lines)) == p + Filter(IsContentLine, lines)
    decreases |lines|
  {
    var closed := if p == [] then [] else [p];
    FlattenSingle(p);
    if lines == [] {
      AppendEmpty(p);
    } else {
      var rest := lines[1..];
      var tail := Filter(IsContentLine, rest);
      if !IsContentLine(lines[0]) {
        assert BlocksFrom(p, lines) == closed + BlocksFrom([], rest);
        assert Filter(IsContentLine, lines) == tail;
        BlocksFromFlatten([], rest);
        FlattenAppend(closed, BlocksFrom([], rest));
        AppendEmpty(tail);
      } else {
        assert BlocksFrom(p, lines) == BlocksFrom(p + [lines[0]], rest);
        assert Filter(IsContentLine, lines) == [lines[0]] + tail;
        BlocksFromFlatten(p + [lines[0]], rest);
        AppendAssoc(p, [lines[0]], tail);
      }
    }
  }

  lemma {:induction false} BlocksFromWellFormed(p: seq<string>, lines: seq<string>)
    requires forall i | 0 <= i < |p| :: IsContentLine(p[i])
    ensures var bs := BlocksFrom(p, lines); forall k | 0 <= k < |bs| :: IsBlock(bs[k])
    decreases |lines|
  {
    var closed := if p == [] then [] else [p];
    assert forall k | 0 <= k < |closed| :: IsBlock(closed[k]);
    if lines != [] {
      if !IsContentLine(lines[0]) {
        BlocksFromWellFormed([], lines[1..]);
        var bs := closed + BlocksFrom([], lines[1..]);
        assert forall k | 0 <= k < |closed| :: bs[k] == closed[k];
        assert forall k | |closed| <= k < |bs| :: bs[k] == BlocksFrom([], lines[1..])[k - |closed|];
        assert BlocksFrom(p, lines) == bs;
        assert forall k | 0 <= k < |bs| :: IsBlock(bs[k]);
      } else {
        var p' := p + [lines[0]];
        assert forall i | 0 <= i < |p'| :: IsContentLine(p'[i]) by {
          assert forall i | 0 <= i < |p| :: p'[i] == p[i];
        }
        BlocksFromWellFormed(p', lines[1..]);
        assert BlocksFrom(p, lines) == BlocksFrom(p', lines[1..]);
        var bs := BlocksFrom(p', lines[1..]);
        assert forall k | 0 <= k < |bs| :: IsBlock(bs[k]);
      }
    }
  }

  /** The paragraphs hold every line that is not blank, in order and
      nothing else; each paragraph is non-empty and holds no blank line. */
  lemma BlocksShape(lines: seq<string>)
    ensures Flatten(Blocks(lines)) == Filter(IsContentLine, lines)
    ensures forall k | 0 <= k < |Blocks(lines)| :: IsBlock(Blocks(lines)[k])
  {
    BlocksFromFlatten([], lines);
    assert [] + Filter(IsContentLine, lines) == Filter(IsContentLine, lines);
    BlocksFromWellFormed([], lines);
  }

  /** Only a blank line ends a paragraph: a run of lines none of which is
      blank stays in the paragraph in progress, and all of it makes one
      paragraph. */
  lemma {:induction false} RunIsOneBlock(p: seq<string>, ls: seq<string>)
    requires forall i | 0 <= i < |ls| :: IsContentLine(ls[i])
    ensures BlocksFrom(p, ls) == if p + ls == [] then [] else [p + ls]
    decreases |ls|
  {
    if ls == [] {
      AppendEmpty(p);
    } else {
      RunIsOneBlock(p + [ls[0]], ls[1..]);
      assert p + [ls[0]] + ls[1..] == p + ls;
    }
  }

  /** A blank line always ends a paragraph: what follows it is split into
      paragraphs on its own. */
  lemma {:induction false} BlankSplits(p: seq<string>, a: seq<string>, b: string, c: seq<string>)
    requires !IsContentLine(b)
    ensures BlocksFrom(p, a + [b] + c) == BlocksFrom(p, a) + Blocks(c)
    decreases |a|
  {
    var closed := if p == [] then [] else [p];
    if a == [] {
      assert a + [b] + c == [b] + c;
      assert ([b] + c)[1..] == c;
    } else {
      assert (a + [b] + c)[0] == a[0];
      assert (a + [b] + c)[1..] == a[1..] + [b] + c;
      if IsContentLine(a[0]) {
        BlankSplits(p + [a[0]], a[1..], b, c);
      } else {
        BlankSplits([], a[1..], b, c);
        AppendAssoc(closed, BlocksFrom([], a[1..]), Blocks(c));
      }
    }
  }

  /** Flushing a paragraph onto a state that has none in progress. */
  function Emit(documentId: string, documentTitle: string, st: FoldState, blocks: seq<seq<string>>): FoldState
    decreases |blocks|
  {
    if blocks == [] then st
    else Emit(documentId, documentTitle, Flush(documentId, documentTitle, st.(paragraph := blocks[0])), blocks[1..])
  }

  lemma {:induction false} EmitAppend(documentId: string, documentTitle: string, st: FoldState,
                                      a: seq<seq<string>>, b: seq<seq<string>>)
    ensures Emit(documentId, documentTitle, st, a + b)
         == Emit(documentId, documentTitle, Emit(documentId, documentTitle, st, a), b)
    decreases |a|
  {
    if a == [] {
      assert a + b == b;
    } else {
      assert (a + b)[0] == a[0];
      assert (a + b)[1..] == a[1..] + b;
      EmitAppend(documentId, documentTitle,
                 Flush(documentId, documentTitle, st.(paragraph := a[0])), a[1..], b);
    }
  }

  /** The line fold followed by the final flush is the same as cutting the
      lines into paragraphs first and flushing each paragraph in turn. */
  lemma {:induction false} FoldIsEmit(documentId: string, documentTitle: string, st: FoldState, lines: seq<string>)
    ensures Flush(documentId, documentTitle, FoldLines(documentId, documentTitle, st, lines))
         == Emit(documentId, documentTitle, st.(paragraph := []), BlocksFrom(st.paragraph, lines))
    decreases |lines|
  {
    var p := st.paragraph;
    var closed := if p == [] then [] else [p];
    assert Emit(documentId, documentTitle, st.(paragraph := []), closed) == Flush(documentId, documentTitle, st) by {
      if p == [] {
        assert st.(paragraph := []) == st;
      } else {
        assert st.(paragraph := []).(paragraph := p) == st;
        assert [p][1..] == [];
      }
    }
    if lines != [] {
      TrimEmptyIffBlank(lines[0]);
      if Trim(lines[0]) == [] {
        var next := Flush(documentId, documentTitle, st);
        FoldIsEmit(documentId, documentTitle, next, lines[1..]);
        assert next.(paragraph := []) == next;
        EmitAppend(documentId, documentTitle, st.(paragraph := []), closed, BlocksFrom([], lines[1..]));
      } else {
        FoldIsEmit(documentId, documentTitle, st.(paragraph := p + [lines[0]]), lines[1..]);
        assert st.(paragraph := p + [lines[0]]).(paragraph := []) == st.(paragraph := []);
      }
    }
  }

  /** The text of one paragraph if it is long enough to keep, else nothing. */
  function KeptText(p: seq<string>): seq<string> {
    var text := ParagraphText(p);
    if Utf16Length(text) >= MinLength then [text] else []
  }

  /** The texts of the paragraphs that are long enough to keep. */
  function Kept(blocks: seq<seq<string>>): seq<string>
    decreases |blocks|
  {
    if blocks == [] then [] else KeptText(blocks[0]) + Kept(blocks[1..])
  }

  function Contents(chunks: seq<Chunk>): (r: seq<string>)
    ensures |r| == |chunks|
    ensures forall i | 0 <= i < |chunks| :: r[i] == chunks[i].content
  {
    seq(|chunks|, i requires 0 <= i < |chunks| => chunks[i].content)
  }

  lemma ContentsSnoc(chunks: seq<Chunk>, c: Chunk)
    ensures Contents(chunks + [c]) == Contents(chunks) + [c.content]
  {
  }

  lemma KeptSingle(p: seq<string>)
    ensures var text := ParagraphText(p);
      Kept([p]) == if Utf16Length(text) >= MinLength then [text] else []
  {
    var bs := [p];
    SingletonTail(p);
    assert Kept(bs) == KeptText(p) + Kept(bs[1..]);
    AppendEmpty(KeptText(p));
  }

  lemma FlushContents(documentId: string, documentTitle: string, st: FoldState)
    ensures Contents(Flush(documentId, documentTitle, st).chunks) == Contents(st.chunks) + Kept([st.paragraph])
  {
    var text := ParagraphText(st.paragraph);
    var r := Flush(documentId, documentTitle, st);
    KeptSingle(st.paragraph);
    if st.paragraph == [] {
      assert text == [] by { assert Join(st.paragraph) == []; }
      assert KeptText(st.paragraph) == [];
      assert r.chunks == st.chunks;
      AppendEmpty(Contents(st.chunks));
    } else if Utf16Length(text) < MinLength {
      assert KeptText(st.paragraph) == [];
      assert r.chunks == st.chunks;
      AppendEmpty(Contents(st.chunks));
    } else {
      assert KeptText(st.paragraph) == [text];
      ContentsSnoc(st.chunks, r.chunks[|st.chunks|]);
      assert r.chunks == st.chunks + [r.chunks[|st.chunks|]];
    }
  }

  lemma {:induction false} EmitContents(documentId: string, documentTitle: string, st: FoldState, blocks: seq<seq<string>>)
    ensures Contents(Emit(documentId, documentTitle, st, blocks).chunks) == Contents(st.chunks) + Kept(blocks)
    decreases |blocks|
  {
    if blocks == [] {
      AppendEmpty(Contents(st.chunks));
    } else {
      var next := Flush(documentId, documentTitle, st.(paragraph := blocks[0]));
      assert Emit(documentId, documentTitle, st, blocks) == Emit(documentId, documentTitle, next, blocks[1..]);
      EmitContents(documentId, documentTitle, next, blocks[1..]);
      FlushContents(documentId, documentTitle, st.(paragraph := blocks[0]));
      KeptCons(blocks);
      AppendAssoc(Contents(st.chunks), Kept([blocks[0]]), Kept(blocks[1..]));
    }
  }

  lemma KeptCons(blocks: seq<seq<string>>)
    requires blocks != []
    ensures Kept(blocks) == Kept([blocks[0]]) + Kept(blocks[1..])
  {
    KeptSingle(blocks[0]);
  }

  /** The chunks of a document are its paragraphs, in order, joined and
      trimmed, with those shorter than `MinLength` UTF-16 units left out. */
  lemma ChunkContents(documentId: string, documentTitle: string, markdown: string)
    ensures Contents(ChunkDocument(documentId, documentTitle, markdown)) == Kept(Blocks(SplitLines(markdown)))
  {
    var lines := SplitLines(markdown);
    if markdown == [] {
      assert lines == [[]];
      assert !IsContentLine(lines[0]);
      assert lines[1..] == [];
      assert BlocksFrom([], lines[1..]) == [];
      assert Blocks(lines) == [];
    } else {
      FoldIsEmit(documentId, documentTitle, Start, lines);
      EmitContents(documentId, documentTitle, Start, Blocks(lines));
      assert Start.(paragraph := []) == Start;
    }
  }

  /** Non-empty lists of content lines. */
  predicate ContentBlocks(blocks: seq<seq<string>>) {
    forall k | 0 <= k < |blocks| :: blocks[k] != [] && ContentLines(blocks[k])
  }

  /** Texts none of which holds a blank line. */
  predicate NoBlankLines(texts: seq<string>) {
    forall j | 0 <= j < |texts| :: NoBlankLine(texts[j])
  }

  lemma NoBlankLinesAppend(a: seq<string>, b: seq<string>)
    requires NoBlankLines(a) && NoBlankLines(b)
    ensures NoBlankLines(a + b)
  {
    forall j | 0 <= j < |a + b| ensures NoBlankLine((a + b)[j]) {
      if j < |a| {
        assert (a + b)[j] == a[j];
      } else {
        assert (a + b)[j] == b[j - |a|];
      }
    }
  }

  /** The kept paragraphs of blocks of content lines have no blank line. */
  lemma {:induction false} KeptNoBlankLine(blocks: seq<seq<string>>)
    requires ContentBlocks(blocks)
    ensures NoBlankLines(Kept(blocks))
    decreases |blocks|
  {
    if blocks != [] {
      assert ContentBlocks(blocks[1..]) by {
        forall k | 0 <= k < |blocks| - 1 ensures blocks[1..][k] != [] && ContentLines(blocks[1..][k]) {
          assert blocks[1..][k] == blocks[k + 1];
        }
      }
      KeptNoBlankLine(blocks[1..]);
      var text := ParagraphText(blocks[0]);
      TrimJoinNoBlankLine(blocks[0]);
      var head := if Utf16Length(text) >= MinLength then [text] else [];
      assert NoBlankLines(head);
      NoBlankLinesAppend(head, Kept(blocks[1..]));
    }
  }

  /** The blocks of a split text are made of content lines. */
  lemma BlocksContentLines(markdown: string)
    ensures ContentBlocks(Blocks(SplitLines(markdown)))
  {
    var lines := SplitLines(markdown);
    var bs := Blocks(lines);
    BlocksShape(lines);
    forall k | 0 <= k < |bs| ensures bs[k] != [] && ContentLines(bs[k]) {
      assert IsBlock(bs[k]);
      forall i | 0 <= i < |bs[k]| ensures NoNewline(bs[k][i]) && !AllSpace(bs[k][i]) {
        FlattenMember(bs, k, i);
        assert bs[k][i] in lines;
      }
    }
  }

  /** No chunk's content holds a blank line: a blank line always ends a
      paragraph. */
  lemma ChunkNoBlankLine(documentId: string, documentTitle: string, markdown: string)
    ensures var chunks := ChunkDocument(documentId, documentTitle, markdown);
      forall i | 0 <= i < |chunks| :: NoBlankLine(chunks[i].content)
  {
    var chunks := ChunkDocument(documentId, documentTitle, markdown);
    ChunkContents(documentId, documentTitle, markdown);
    BlocksContentLines(markdown);
    KeptNoBlankLine(Blocks(SplitLines(markdown)));
    forall i | 0 <= i < |chunks| ensures NoBlankLine(chunks[i].content) {
      assert chunks[i].content == Contents(chunks)[i];
    }
  }

  /** A paragraph too short to keep yields no chunk, and in particular
      leaves the section title alone even when it is a heading. */
  lemma ShortParagraphDropped(documentId: string, documentTitle: string, st: FoldState)
    requires st.paragraph != [] && Utf16Length(ParagraphText(st.paragraph)) < MinLength
    ensures Flush(documentId, documentTitle, st) == st.(paragraph := [])
  {
  }
}
