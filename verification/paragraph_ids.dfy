/** Paragraph addresses `{documentId}-p{index}` and the parser that reads
    the document ID back out of one (`generateParagraphId` and
    `parseDocumentIdFromParagraphId` in src/lib/rag/chunking.ts). */
module ParagraphIds {
  import opened Wrappers
  import opened Text

  /** `${documentId}-p${index}`. */
  function ParagraphId(documentId: string, index: nat): string {
    documentId + "-p" + Decimal(index)
  }

  /** `t` matches `-p\d+` up to the end of the input. */
  predicate IsIdSuffix(t: string) {
    && |t| >= 3
    && t[0] == '-' && t[1] == 'p'
    && forall k | 2 <= k < |t| :: IsDigit(t[k])
  }

  /** The lazy group of `^(.+?)-p\d+$`, trying group lengths `n, n+1, ...`:
      `.` cannot cross a line terminator, so the search stops at the first
      one. */
  function ParseFrom(s: string, n: nat): Option<string>
    requires 1 <= n
    decreases |s| + 1 - n
  {
    if n > |s| then None
    else if IsLineTerminator(s[n - 1]) then None
    else if IsIdSuffix(s[n..]) then Some(s[..n])
    else ParseFrom(s, n + 1)
  }

  /** `parseDocumentIdFromParagraphId`: `None` stands for `null`. */
  function ParseDocumentId(paragraphId: string): Option<string> {
    ParseFrom(paragraphId, 1)
  }

  lemma {:induction false} ParseFromSpec(s: string, n: nat)
    requires 1 <= n
    ensures var r := ParseFrom(s, n);
      && (r.Some? ==>
            && n <= |r.value| <= |s|
            && r.value == s[..|r.value|]
            && NoLineTerminator(s[n - 1..|r.value|])
            && IsIdSuffix(s[|r.value|..])
            && forall m | n <= m < |r.value| :: !IsIdSuffix(s[m..]))
      && (r.None? ==>
            forall m | n <= m <= |s| && NoLineTerminator(s[n - 1..m]) :: !IsIdSuffix(s[m..]))
    decreases |s| + 1 - n
  {
    if n <= |s| && !IsLineTerminator(s[n - 1]) && !IsIdSuffix(s[n..]) {
      ParseFromSpec(s, n + 1);
      var r := ParseFrom(s, n + 1);
      if r.Some? {
        assert s[n - 1..|r.value|] == [s[n - 1]] + s[n..|r.value|];
      } else {
        forall m | n <= m <= |s| && NoLineTerminator(s[n - 1..m])
          ensures !IsIdSuffix(s[m..])
        {
          if m > n {
            assert s[n..m] == s[n - 1..m][1..];
          }
        }
      }
    } else if n <= |s| && IsLineTerminator(s[n - 1]) {
      LeadingTerminator(s, n - 1);
    }
  }

  lemma LeadingTerminator(s: string, lo: nat)
    requires lo < |s| && IsLineTerminator(s[lo])
    ensures forall hi | lo < hi <= |s| :: !NoLineTerminator(s[lo..hi])
  {
    forall hi | lo < hi <= |s| ensures !NoLineTerminator(s[lo..hi]) {
      assert s[lo..hi][0] == s[lo];
    }
  }

  lemma CharOfSuffix(s: string, m: int, k: int)
    ensures 0 <= m <= |s| && 0 <= k < |s| - m ==> s[m..][k] == s[m + k]
  {
  }

  /** The parser's answer is exactly what the regular expression captures:
      the shortest non-empty prefix free of line terminators that is
      followed by `-p` and at least one digit up to the end; `None` when
      there is no such prefix. */
  lemma ParseDocumentIdSpec(s: string)
    ensures var r := ParseDocumentId(s);
      && (r.Some? ==>
            && r.value != [] && r.value <= s
            && NoLineTerminator(r.value)
            && IsIdSuffix(s[|r.value|..])
            && forall m | 1 <= m < |r.value| :: !IsIdSuffix(s[m..]))
      && (r.None? ==>
            forall m | 1 <= m <= |s| && NoLineTerminator(s[..m]) :: !IsIdSuffix(s[m..]))
  {
    ParseFromSpec(s, 1);
    var r := ParseDocumentId(s);
    if r.Some? {
      assert s[0..|r.value|] == r.value;
    } else {
      forall m | 1 <= m <= |s| && NoLineTerminator(s[..m]) ensures !IsIdSuffix(s[m..]) {
        assert s[0..m] == s[..m];
      }
    }
  }

  /** In a generated address the only place where `-p<digits>` runs to the
      end is right after the document ID. */
  lemma SuffixOnlyAfterId(id: string, index: nat, m: nat)
    requires var s := ParagraphId(id, index); 1 <= m <= |s| && IsIdSuffix(s[m..])
    ensures m == |id|
  {
    var s := ParagraphId(id, index);
    assert s[|id|] == '-' && s[|id| + 1] == 'p';
    assert forall k | |id| + 2 <= k < |s| :: s[k] == Decimal(index)[k - |id| - 2];
    CharOfSuffix(s, m, |id| - m);
    CharOfSuffix(s, m, 0);
  }

  /** Parsing a generated address gives back the document ID, provided the
      ID is non-empty and free of line terminators (the regular expression's
      `.+?` needs at least one character and cannot match a line
      terminator); otherwise the parser answers `None`. */
  lemma ParseGeneratedId(id: string, index: nat)
    ensures ParseDocumentId(ParagraphId(id, index))
         == if id != [] && NoLineTerminator(id) then Some(id) else None
  {
    var s := ParagraphId(id, index);
    ParseDocumentIdSpec(s);
    var r := ParseDocumentId(s);
    assert s[|id|..] == "-p" + Decimal(index);
    assert s[..|id|] == id;
    if r.Some? {
      SuffixOnlyAfterId(id, index, |r.value|);
      assert r.value == s[..|r.value|];
    } else if id != [] && NoLineTerminator(id) {
      assert IsIdSuffix(s[|id|..]);
    }
  }

  /** Distinct (document, index) pairs get distinct addresses, whatever the
      IDs: in an address the only place where `-p<digits>` runs to the end
      is right after the document ID, so the ID's length, and with it the
      ID and the index, can be read back. */
  lemma ParagraphIdInjective(a: string, m: nat, b: string, n: nat)
    requires ParagraphId(a, m) == ParagraphId(b, n)
    ensures a == b && m == n
  {
    var s := ParagraphId(a, m);
    assert s[|a|..] == "-p" + Decimal(m);
    assert s[|b|..] == "-p" + Decimal(n);
    if |a| != |b| {
      if |b| == 0 {
        SuffixOnlyAfterId(b, n, |a|);
      } else {
        SuffixOnlyAfterId(a, m, |b|);
      }
    }
    assert a == s[..|a|] == b;
    assert s[|a| + 2..] == Decimal(m) == Decimal(n);
    DecimalInjective(m, n);
  }

  /** Within one document, distinct indices give distinct addresses, whatever
      the ID. */
  lemma ParagraphIdIndexInjective(id: string, m: nat, n: nat)
    requires ParagraphId(id, m) == ParagraphId(id, n)
    ensures m == n
  {
    assert ParagraphId(id, m)[|id| + 2..] == Decimal(m);
    assert ParagraphId(id, n)[|id| + 2..] == Decimal(n);
    DecimalInjective(m, n);
  }
}
