/**
 Splitting an uploaded document into overlapping chunks for the language model.

 The loop is modelled as it stands: it scans back from the size limit for a
 whitespace byte, cuts there, and steps back by the overlap unless that would
 not move forward. The cuts it makes are described by IsCutting; everything the
 caller relies on (coverage, size, progress, the number of chunks) is then
 proved of any cutting.
 */
module KnowledgeChunker {

  newtype Byte = b: int | 0 <= b < 256

  /** The four bytes at which the loop is willing to cut. */
  predicate IsBoundary(b: Byte) {
    b == 32 || b == 10 || b == 13 || b == 9
  }

  /** The UTF-8 encodings of the white space that trimming removes. */
  predicate IsSpace(r: seq<Byte>) {
    match |r|
    case 1 => IsBoundary(r[0]) || r[0] == 11 || r[0] == 12
    case 2 => r[0] == 0xC2 && (r[1] == 0x85 || r[1] == 0xA0)
    case 3 =>
      || (r[0] == 0xE1 && r[1] == 0x9A && r[2] == 0x80)
      || (r[0] == 0xE2 && r[1] == 0x80 && (0x80 <= r[2] <= 0x8A || r[2] == 0xA8 || r[2] == 0xA9 || r[2] == 0xAF))
      || (r[0] == 0xE2 && r[1] == 0x81 && r[2] == 0x9F)
      || (r[0] == 0xE3 && r[1] == 0x80 && r[2] == 0x80)
    case _ => false
  }

  /** UTF-8, for the code points below 0x10000. */
  function Encoded(codePoint: int): seq<Byte>
    requires 0 <= codePoint < 0x10000
  {
    if codePoint < 0x80 then [codePoint as Byte]
    else if codePoint < 0x800 then [(0xC0 + codePoint / 64) as Byte, (0x80 + codePoint % 64) as Byte]
    else [(0xE0 + codePoint / 4096) as Byte, (0x80 + codePoint / 64 % 64) as Byte, (0x80 + codePoint % 64) as Byte]
  }

  /** What is trimmed is exactly the encodings of Unicode's white space. */
  lemma WhiteSpaceIsUnicodes(codePoint: int)
    requires 0 <= codePoint < 0x10000
    ensures IsSpace(Encoded(codePoint)) <==>
              || 0x09 <= codePoint <= 0x0D || codePoint == 0x20 || codePoint == 0x85 || codePoint == 0xA0
              || codePoint == 0x1680 || 0x2000 <= codePoint <= 0x200A || codePoint == 0x2028 || codePoint == 0x2029
              || codePoint == 0x202F || codePoint == 0x205F || codePoint == 0x3000
  {
  }

  /** The byte at p belongs to white space. */
  ghost predicate Blank(text: seq<Byte>, p: int) {
    exists i, j :: 0 <= i <= p < j <= |text| && IsSpace(text[i..j])
  }

  /** A half-open range of positions. */
  datatype Span = Span(start: nat, end: nat)

  ghost predicate Within(text: seq<Byte>, s: Span) {
    s.start <= s.end <= |text|
  }

  datatype ChunkResult =
    | Chunks(chunks: seq<seq<Byte>>)
    | NoReadableText
    | InvalidConfiguration

  /** How many bytes of white space s begins with: those of one character, or none. */
  function Leading(text: seq<Byte>, s: Span): (n: nat)
    requires s.start <= s.end <= |text|
    ensures s.start + n <= s.end
    ensures n > 0 ==> IsSpace(text[s.start..s.start + n])
    ensures n == 0 ==> forall e | s.start <= e <= s.end :: !IsSpace(text[s.start..e])
  {
    if s.start + 1 <= s.end && IsSpace(text[s.start..s.start + 1]) then 1
    else if s.start + 2 <= s.end && IsSpace(text[s.start..s.start + 2]) then 2
    else if s.start + 3 <= s.end && IsSpace(text[s.start..s.start + 3]) then 3
    else 0
  }

  function Trailing(text: seq<Byte>, s: Span): (n: nat)
    requires s.start <= s.end <= |text|
    ensures s.start + n <= s.end
    ensures n > 0 ==> IsSpace(text[s.end - n..s.end])
    ensures n == 0 ==> forall b | s.start <= b <= s.end :: !IsSpace(text[b..s.end])
  {
    if s.start + 1 <= s.end && IsSpace(text[s.end - 1..s.end]) then 1
    else if s.start + 2 <= s.end && IsSpace(text[s.end - 2..s.end]) then 2
    else if s.start + 3 <= s.end && IsSpace(text[s.end - 3..s.end]) then 3
    else 0
  }

  /** The range left of s once white space is trimmed from both ends. */
  function Trim(text: seq<Byte>, s: Span): (t: Span)
    requires s.start <= s.end <= |text|
    ensures s.start <= t.start <= t.end <= s.end
    ensures forall p | s.start <= p < s.end && !(t.start <= p < t.end) :: Blank(text, p)
    ensures Leading(text, t) == 0 && Trailing(text, t) == 0
    decreases s.end - s.start
  {
    var n, m := Leading(text, s), Trailing(text, s);
    if n > 0 then
      assert forall p | s.start <= p < s.start + n :: Blank(text, p);
      Trim(text, Span(s.start + n, s.end))
    else if m > 0 then
      assert forall p | s.end - m <= p < s.end :: Blank(text, p);
      Trim(text, Span(s.start, s.end - m))
    else s
  }

  /** The text neither begins nor ends with white space. */
  ghost predicate Trimmed(text: seq<Byte>) {
    && (forall e | 0 <= e <= |text| :: !IsSpace(text[..e]))
    && (forall b | 0 <= b <= |text| :: !IsSpace(text[b..]))
  }

  /** Only white space goes, and none is left at either end. */
  function TrimSpace(raw: seq<Byte>): (text: seq<Byte>)
    ensures exists i, j :: 0 <= i <= j <= |raw| && text == raw[i..j]
                           && forall p | 0 <= p < |raw| && !(i <= p < j) :: Blank(raw, p)
    ensures Trimmed(text)
  {
    var t := Trim(raw, Span(0, |raw|));
    TrimmedPart(raw, t);
    raw[t.start..t.end]
  }

  lemma TrimmedPart(text: seq<Byte>, t: Span)
    requires t.start <= t.end <= |text| && Leading(text, t) == 0 && Trailing(text, t) == 0
    ensures Trimmed(text[t.start..t.end])
  {
    var part := text[t.start..t.end];
    forall e | 0 <= e <= |part| ensures !IsSpace(part[..e]) {
      assert part[..e] == text[t.start..t.start + e];
    }
    forall b | 0 <= b <= |part| ensures !IsSpace(part[b..]) {
      assert part[b..] == text[t.start + b..t.end];
    }
  }

  predicate ValidConfiguration(maxChars: int, overlap: int) {
    0 <= overlap < maxChars
  }

  /** No position in (lo, hi] holds a boundary byte. */
  ghost predicate NoBoundary(text: seq<Byte>, lo: int, hi: int) {
    forall p | 0 <= p < |text| && lo < p <= hi :: !IsBoundary(text[p])
  }

  /** A cut that does not reach the end: it stops at the last boundary byte within
      the limit or, when there is none, at the limit itself. */
  ghost predicate InnerCut(text: seq<Byte>, maxChars: nat, c: Span) {
    && c.start < c.end <= c.start + maxChars < |text|
    && NoBoundary(text, c.end, c.start + maxChars)
    && (IsBoundary(text[c.end]) || (c.end == c.start + maxChars && NoBoundary(text, c.start, c.end)))
  }

  function NextStart(c: Span, overlap: nat): nat {
    if c.end - overlap <= c.start then c.end else c.end - overlap
  }

  ghost predicate Follows(text: seq<Byte>, maxChars: nat, overlap: nat, c: Span, d: Span) {
    InnerCut(text, maxChars, c) && d.start == NextStart(c, overlap)
  }

  ghost predicate Chained(text: seq<Byte>, maxChars: nat, overlap: nat, cuts: seq<Span>) {
    forall i | 0 <= i < |cuts| - 1 :: Follows(text, maxChars, overlap, cuts[i], cuts[i + 1])
  }

  /** The cuts the loop makes: chained from position 0, the last one reaching the end. */
  ghost predicate IsCutting(text: seq<Byte>, maxChars: nat, overlap: nat, cuts: seq<Span>) {
    && cuts != []
    && cuts[0].start == 0
    && Chained(text, maxChars, overlap, cuts)
    && (var last := cuts[|cuts| - 1]; last.start < last.end == |text| <= last.start + maxChars)
  }

  ghost predicate AllWithin(text: seq<Byte>, cuts: seq<Span>) {
    forall i | 0 <= i < |cuts| :: Within(text, cuts[i])
  }

  function Piece(text: seq<Byte>, c: Span): seq<Byte>
    requires c.start <= c.end <= |text|
  {
    var t := Trim(text, c);
    text[t.start..t.end]
  }

  /** The chunks a list of cuts yields: each cut trimmed, blank ones dropped. */
  ghost function Pieces(text: seq<Byte>, cuts: seq<Span>): seq<seq<Byte>>
    requires AllWithin(text, cuts)
  {
    if cuts == [] then []
    else
      var front, piece := cuts[..|cuts| - 1], Piece(text, cuts[|cuts| - 1]);
      if piece == [] then Pieces(text, front) else Pieces(text, front) + [piece]
  }

  method ChunkKnowledgeText(raw: seq<Byte>, maxChars: int, overlap: int)
    returns (r: ChunkResult, ghost cuts: seq<Span>)
    ensures r.NoReadableText? <==> TrimSpace(raw) == []
    ensures r.InvalidConfiguration? <==> TrimSpace(raw) != [] && (maxChars <= 0 || overlap < 0 || overlap >= maxChars)
    ensures r.Chunks? ==>
              && IsCutting(TrimSpace(raw), maxChars, overlap, cuts)
              && AllWithin(TrimSpace(raw), cuts)
              && r.chunks == Pieces(TrimSpace(raw), cuts)
  {
    cuts := [];
    var text := TrimSpace(raw);
    if text == [] {
      return NoReadableText, [];
    }
    if maxChars <= 0 || overlap < 0 || overlap >= maxChars {
      return InvalidConfiguration, [];
    }
    var chunks;
    chunks, cuts := ChunkTrimmed(text, maxChars, overlap);
    return Chunks(chunks), cuts;
  }

  /** The cutting loop, once the text is known to be readable and the sizes valid. */
  method ChunkTrimmed(text: seq<Byte>, maxChars: nat, overlap: nat)
    returns (chunks: seq<seq<Byte>>, ghost cuts: seq<Span>)
    requires text != [] && Trimmed(text) && overlap < maxChars
    ensures IsCutting(text, maxChars, overlap, cuts)
    ensures AllWithin(text, cuts) && chunks == Pieces(text, cuts)
  {
    chunks, cuts := [], [];
    var start := 0;
    while true
      invariant 0 <= start < |text|
      invariant AllWithin(text, cuts)
      invariant chunks == Pieces(text, cuts)
      invariant ReadyAt(text, maxChars, overlap, cuts, start)
      decreases |text| - start
    {
      var end := start + maxChars;
      if end >= |text| {
        LastCut(text, maxChars, overlap, cuts, start);
        chunks := chunks + [Piece(text, Span(start, |text|))];
        cuts := cuts + [Span(start, |text|)];
        return;
      }
      var boundary := FindBoundary(text, start, maxChars);
      var chunk := Piece(text, Span(start, boundary));
      if chunk != [] {
        chunks := chunks + [chunk];
      }
      var next := boundary - overlap;
      if next <= start {
        next := boundary;
      }
      AnotherCut(text, maxChars, overlap, cuts, Span(start, boundary));
      cuts := cuts + [Span(start, boundary)];
      start := next;
    }
  }

  /** The inner scan: back from the limit to the last boundary byte, or the limit. */
  method FindBoundary(text: seq<Byte>, start: nat, maxChars: nat) returns (boundary: nat)
    requires 0 < maxChars && start + maxChars < |text|
    ensures InnerCut(text, maxChars, Span(start, boundary))
  {
    var end := start + maxChars;
    boundary := end;
    while boundary > start && !IsBoundary(text[boundary])
      invariant start <= boundary <= end
      invariant NoBoundary(text, boundary, end)
    {
      boundary := boundary - 1;
    }
    if boundary == start {
      boundary := end;
    }
  }

  /** The cuts so far are chained and the next one is to begin at `start`. */
  ghost predicate ReadyAt(text: seq<Byte>, maxChars: nat, overlap: nat, cuts: seq<Span>, start: nat) {
    && Chained(text, maxChars, overlap, cuts)
    && (if cuts == [] then start == 0
        else cuts[0].start == 0 && Follows(text, maxChars, overlap, cuts[|cuts| - 1], Span(start, start)))
  }

  lemma AnotherCut(text: seq<Byte>, maxChars: nat, overlap: nat, cuts: seq<Span>, c: Span)
    requires AllWithin(text, cuts) && InnerCut(text, maxChars, c)
    requires ReadyAt(text, maxChars, overlap, cuts, c.start)
    ensures ReadyAt(text, maxChars, overlap, cuts + [c], NextStart(c, overlap))
    ensures AllWithin(text, cuts + [c])
    ensures Pieces(text, cuts + [c])
         == if Piece(text, c) == [] then Pieces(text, cuts) else Pieces(text, cuts) + [Piece(text, c)]
  {
    ChainSnoc(text, maxChars, overlap, cuts, c);
    PiecesSnoc(text, cuts, c);
  }

  lemma LastCut(text: seq<Byte>, maxChars: nat, overlap: nat, cuts: seq<Span>, start: nat)
    requires AllWithin(text, cuts) && ReadyAt(text, maxChars, overlap, cuts, start)
    requires start < |text| <= start + maxChars && Trimmed(text)
    ensures IsCutting(text, maxChars, overlap, cuts + [Span(start, |text|)])
    ensures AllWithin(text, cuts + [Span(start, |text|)])
    ensures Pieces(text, cuts + [Span(start, |text|)]) == Pieces(text, cuts) + [Piece(text, Span(start, |text|))]
  {
    ChainSnoc(text, maxChars, overlap, cuts, Span(start, |text|));
    PiecesSnoc(text, cuts, Span(start, |text|));
    LastPieceKept(text, start);
  }

  lemma ChainSnoc(text: seq<Byte>, maxChars: nat, overlap: nat, cuts: seq<Span>, c: Span)
    requires ReadyAt(text, maxChars, overlap, cuts, c.start)
    ensures Chained(text, maxChars, overlap, cuts + [c]) && (cuts + [c])[0].start == 0
  {
    var all := cuts + [c];
    forall i | 0 <= i < |all| - 1 ensures Follows(text, maxChars, overlap, all[i], all[i + 1]) {
      assert all[i] == cuts[i];
      if i + 1 < |cuts| {
        assert all[i + 1] == cuts[i + 1] && Follows(text, maxChars, overlap, cuts[i], cuts[i + 1]);
      }
    }
  }

  lemma PiecesSnoc(text: seq<Byte>, cuts: seq<Span>, c: Span)
    requires AllWithin(text, cuts) && Within(text, c)
    ensures AllWithin(text, cuts + [c])
    ensures Pieces(text, cuts + [c])
         == if Piece(text, c) == [] then Pieces(text, cuts) else Pieces(text, cuts) + [Piece(text, c)]
  {
    assert (cuts + [c])[..|cuts|] == cuts;
  }

  lemma LastPieceKept(text: seq<Byte>, start: nat)
    requires start < |text| && Trimmed(text)
    ensures Piece(text, Span(start, |text|)) != []
  {
    NotAllBlank(text, Span(start, |text|));
  }

  /** A range that ends where the trimmed text ends keeps its last character. */
  lemma {:induction false} NotAllBlank(text: seq<Byte>, s: Span)
    requires s.start < s.end == |text| && Trimmed(text)
    ensures var t := Trim(text, s); t.start < t.end
    decreases s.end - s.start
  {
    NoneTrailing(text, s);
    var n := Leading(text, s);
    if n > 0 {
      NotAllBlank(text, Span(s.start + n, s.end));
      assert Trim(text, s) == Trim(text, Span(s.start + n, s.end));
    } else {
      assert Trim(text, s) == s;
    }
  }

  lemma NoneTrailing(text: seq<Byte>, s: Span)
    requires s.start < s.end == |text| && Trimmed(text)
    ensures Trailing(text, s) == 0 && s.start + Leading(text, s) < s.end
  {
    var n, m := Leading(text, s), Trailing(text, s);
    assert text[s.end - m..s.end] == text[s.end - m..];
    assert text[s.start..s.end] == text[s.start..];
  }

  /** After a cut at a boundary byte, nothing up to that cut's limit is a boundary, so
      the next cut falls on the same byte or beyond the limit. */
  lemma NextCutBeyond(text: seq<Byte>, maxChars: nat, overlap: nat, c: Span, d: Span)
    requires overlap < maxChars && Follows(text, maxChars, overlap, c, d) && InnerCut(text, maxChars, d)
    requires IsBoundary(text[c.end])
    ensures d.end == c.end || d.end > c.start + maxChars
  {
  }

  lemma BoundaryFreeCut(text: seq<Byte>, maxChars: nat, c: Span, d: Span)
    requires InnerCut(text, maxChars, c) && InnerCut(text, maxChars, d) && d.start == c.end
    ensures d.end > c.start + maxChars
  {
  }

  /** Any three cuts in a row that do not reach the end move the start forward by at
      least the limit less the overlap, whatever the text looks like. */
  lemma ThreeCutsAdvance(text: seq<Byte>, maxChars: nat, overlap: nat, cuts: seq<Span>, i: nat)
    requires ValidConfiguration(maxChars, overlap) && Chained(text, maxChars, overlap, cuts)
    requires i + 3 < |cuts|
    ensures cuts[i + 3].start >= cuts[i].start + (maxChars - overlap)
  {
    assert Follows(text, maxChars, overlap, cuts[i], cuts[i + 1]);
    assert Follows(text, maxChars, overlap, cuts[i + 1], cuts[i + 2]);
    assert Follows(text, maxChars, overlap, cuts[i + 2], cuts[i + 3]);
    if IsBoundary(text[cuts[i].end]) {
      NextCutBeyond(text, maxChars, overlap, cuts[i], cuts[i + 1]);
      if cuts[i + 1].end == cuts[i].end {
        BoundaryFreeCut(text, maxChars, cuts[i], cuts[i + 2]);
      }
    }
  }

  lemma StartsGrow(text: seq<Byte>, maxChars: nat, overlap: nat, cuts: seq<Span>, i: nat, j: nat)
    requires Chained(text, maxChars, overlap, cuts)
    requires i <= j < |cuts|
    ensures cuts[i].start + (j - i) <= cuts[j].start
    decreases j - i
  {
    if i < j {
      StartsGrow(text, maxChars, overlap, cuts, i, j - 1);
      assert Follows(text, maxChars, overlap, cuts[j - 1], cuts[j]);
    }
  }

  lemma {:induction false} StartAfterTriples(text: seq<Byte>, maxChars: nat, overlap: nat, cuts: seq<Span>, m: nat)
    requires ValidConfiguration(maxChars, overlap) && IsCutting(text, maxChars, overlap, cuts)
    requires 3 * m < |cuts|
    ensures cuts[3 * m].start >= m * (maxChars - overlap)
  {
    if m > 0 {
      StartAfterTriples(text, maxChars, overlap, cuts, m - 1);
      ThreeCutsAdvance(text, maxChars, overlap, cuts, 3 * (m - 1));
      assert m * (maxChars - overlap) == (m - 1) * (maxChars - overlap) + (maxChars - overlap);
    }
  }

  lemma QuotientBound(m: nat, d: nat, x: nat)
    requires d > 0 && m * d <= x
    ensures m <= x / d
  {
    var q := x / d;
    assert x < q * d + d;
    assert m > q ==> m * d >= (q + 1) * d == q * d + d;
  }

  lemma QuotientShift(x: nat, d: nat, y: nat)
    requires d > 0 && x + d <= y
    ensures x / d + 1 <= y / d
  {
    assert (x / d + 1) * d == (x / d) * d + d;
    QuotientBound(x / d + 1, d, y);
  }

  /** The loop's length: three cuts for each stride of maxChars - overlap. The first
      bound is the sharper one; the second is in terms of the whole text. */
  lemma CutCountBound(text: seq<Byte>, maxChars: nat, overlap: nat, cuts: seq<Span>)
    requires ValidConfiguration(maxChars, overlap) && IsCutting(text, maxChars, overlap, cuts)
    ensures |text| <= maxChars ==> |cuts| == 1
    ensures |text| > maxChars ==> |cuts| <= 3 * ((|text| - maxChars - 1) / (maxChars - overlap)) + 4
    ensures |cuts| <= 3 * ((|text| + (maxChars - overlap) - 1) / (maxChars - overlap)) + 1
  {
    var d, inner := maxChars - overlap, |cuts| - 1;
    if inner > 0 {
      assert Follows(text, maxChars, overlap, cuts[0], cuts[1]);
      assert Follows(text, maxChars, overlap, cuts[inner - 1], cuts[inner]);
      var m := (inner - 1) / 3;
      StartAfterTriples(text, maxChars, overlap, cuts, m);
      StartsGrow(text, maxChars, overlap, cuts, 3 * m, inner - 1);
      CountFromTriples(inner, m, d, |text|, maxChars);
    } else {
      QuotientBound(1, d, |text| + d - 1);
    }
  }

  lemma CountFromTriples(inner: nat, m: nat, d: nat, size: nat, maxChars: nat)
    requires inner <= 3 * m + 3 && 0 < d && maxChars < size && m * d <= size - maxChars - 1
    ensures inner + 1 <= 3 * ((size - maxChars - 1) / d) + 4
    ensures inner + 1 <= 3 * ((size + d - 1) / d) + 1
  {
    QuotientBound(m, d, size - maxChars - 1);
    QuotientShift(size - maxChars - 1, d, size + d - 1);
  }

  /** Two cuts are not enough for the bound above, and one may move by a single byte:
      the factor three and the measure are both needed. */
  lemma ShortStepsHappen()
    ensures exists text, cuts: seq<Span> ::
              && IsCutting(text, 10, 4, cuts) && |cuts| > 3
              && cuts[1].start == cuts[0].start + 1
              && cuts[2].start < cuts[0].start + (10 - 4)
  {
    var text := seq(20, i requires 0 <= i => if i == 5 then 32 as Byte else 120);
    var cuts := [Span(0, 5), Span(1, 5), Span(5, 15), Span(11, 20)];
    assert Chained(text, 10, 4, cuts);
    assert IsCutting(text, 10, 4, cuts);
  }

  /** Consecutive cuts leave no gap and share at most `overlap` bytes; each is at most
      maxChars long. */
  lemma CutsAdjoin(text: seq<Byte>, maxChars: nat, overlap: nat, cuts: seq<Span>, i: nat)
    requires ValidConfiguration(maxChars, overlap) && IsCutting(text, maxChars, overlap, cuts)
    requires i < |cuts|
    ensures Within(text, cuts[i]) && 0 < cuts[i].end - cuts[i].start <= maxChars
    ensures i + 1 < |cuts| ==>
              && cuts[i].start < cuts[i + 1].start <= cuts[i].end <= cuts[i + 1].end
              && cuts[i].end - cuts[i + 1].start <= overlap
  {
    if i + 1 < |cuts| {
      assert Follows(text, maxChars, overlap, cuts[i], cuts[i + 1]);
      if i + 2 < |cuts| {
        assert Follows(text, maxChars, overlap, cuts[i + 1], cuts[i + 2]);
        EndsGrow(text, maxChars, overlap, cuts[i], cuts[i + 1]);
      }
    }
  }

  /** A cut longer than the overlap shares exactly `overlap` bytes with the next; a shorter one
      is followed without any. */
  lemma SharesExactly(text: seq<Byte>, maxChars: nat, overlap: nat, cuts: seq<Span>, i: nat)
    requires Chained(text, maxChars, overlap, cuts) && i + 1 < |cuts|
    ensures var length := cuts[i].end - cuts[i].start;
            cuts[i].end - cuts[i + 1].start == if length > overlap then overlap else 0
  {
    assert Follows(text, maxChars, overlap, cuts[i], cuts[i + 1]);
  }

  /** Where an inner cut ends: at the last space, newline, carriage return or tab at or before
      the limit, if there is any after its start, and else at the limit. */
  lemma EndsAtLastBreak(text: seq<Byte>, maxChars: nat, c: Span, p: nat)
    requires InnerCut(text, maxChars, c) && c.start < p <= c.start + maxChars
    requires text[p] == ' ' as Byte || text[p] == '\n' as Byte || text[p] == '\r' as Byte || text[p] == '\t' as Byte
    ensures p <= c.end
    ensures text[c.end] == ' ' as Byte || text[c.end] == '\n' as Byte || text[c.end] == '\r' as Byte || text[c.end] == '\t' as Byte
  {
  }

  lemma EndsAtLimitWithoutBreak(text: seq<Byte>, maxChars: nat, c: Span)
    requires InnerCut(text, maxChars, c)
    requires forall p | c.start < p <= c.start + maxChars :: text[p] !in {32, 10, 13, 9}
    ensures c.end == c.start + maxChars
  {
  }

  lemma EndsGrow(text: seq<Byte>, maxChars: nat, overlap: nat, c: Span, d: Span)
    requires overlap < maxChars && Follows(text, maxChars, overlap, c, d) && InnerCut(text, maxChars, d)
    ensures c.end <= d.end
  {
  }

  lemma {:induction false} SomeCutHolds(text: seq<Byte>, maxChars: nat, overlap: nat, cuts: seq<Span>, p: nat, j: nat)
    returns (i: nat)
    requires ValidConfiguration(maxChars, overlap) && IsCutting(text, maxChars, overlap, cuts)
    requires p < |text| && j < |cuts| && cuts[j].start <= p
    ensures i < |cuts| && cuts[i].start <= p < cuts[i].end
    decreases |cuts| - j
  {
    if p < cuts[j].end {
      i := j;
    } else {
      CutsAdjoin(text, maxChars, overlap, cuts, j);
      i := SomeCutHolds(text, maxChars, overlap, cuts, p, j + 1);
    }
  }

  lemma {:induction false} PieceKept(text: seq<Byte>, cuts: seq<Span>, i: nat)
    requires AllWithin(text, cuts) && i < |cuts| && Piece(text, cuts[i]) != []
    ensures Piece(text, cuts[i]) in Pieces(text, cuts)
  {
    if i < |cuts| - 1 {
      PieceKept(text, cuts[..|cuts| - 1], i);
    }
  }

  /** Nothing readable is lost: every byte of the document that is not white space lies
      in a chunk the method returns. */
  lemma EveryByteIsKept(text: seq<Byte>, maxChars: nat, overlap: nat, cuts: seq<Span>, p: nat)
    requires ValidConfiguration(maxChars, overlap) && IsCutting(text, maxChars, overlap, cuts)
    requires AllWithin(text, cuts)
    requires p < |text| && !Blank(text, p)
    ensures exists i, t: Span ::
              && 0 <= i < |cuts| && t == Trim(text, cuts[i]) && t.start <= p < t.end
              && text[t.start..t.end] in Pieces(text, cuts)
  {
    var i := SomeCutHolds(text, maxChars, overlap, cuts, p, 0);
    var t := Trim(text, cuts[i]);
    assert t.start <= p < t.end;
    assert Piece(text, cuts[i])[p - t.start] == text[p];
    PieceKept(text, cuts, i);
  }

  /** pieces[k] is the cut numbered from[k], trimmed and not blank. */
  ghost predicate ComeFrom(text: seq<Byte>, pieces: seq<seq<Byte>>, cuts: seq<Span>, from: seq<nat>)
    requires AllWithin(text, cuts)
  {
    && |from| == |pieces| <= |cuts|
    && (forall k | 0 <= k < |from| :: from[k] < |cuts| && pieces[k] == Piece(text, cuts[from[k]]) != [])
    && (forall j, k | 0 <= j < k < |from| :: from[j] < from[k])
  }

  lemma ComeFromSnoc(text: seq<Byte>, pieces: seq<seq<Byte>>, cuts: seq<Span>, from: seq<nat>, c: Span)
    requires AllWithin(text, cuts) && Within(text, c) && ComeFrom(text, pieces, cuts, from)
    ensures AllWithin(text, cuts + [c]) && ComeFrom(text, pieces, cuts + [c], from)
    ensures Piece(text, c) != [] ==> ComeFrom(text, pieces + [Piece(text, c)], cuts + [c], from + [|cuts|])
  {
  }

  /** Every chunk is one of the cuts, trimmed and not blank, in the order of the text;
      so it fits the limit and there are no more chunks than cuts. */
  lemma {:induction false} ChunksComeFromCuts(text: seq<Byte>, cuts: seq<Span>) returns (from: seq<nat>)
    requires AllWithin(text, cuts)
    ensures ComeFrom(text, Pieces(text, cuts), cuts, from)
  {
    from := [];
    if cuts != [] {
      var front, last := cuts[..|cuts| - 1], cuts[|cuts| - 1];
      from := ChunksComeFromCuts(text, front);
      assert cuts == front + [last];
      ComeFromSnoc(text, Pieces(text, front), front, from, last);
      PiecesSnoc(text, front, last);
      if Piece(text, last) != [] {
        from := from + [|front|];
      }
    }
  }

  lemma ChunkFits(text: seq<Byte>, maxChars: nat, overlap: nat, cuts: seq<Span>, k: nat)
    requires ValidConfiguration(maxChars, overlap) && IsCutting(text, maxChars, overlap, cuts)
    requires AllWithin(text, cuts) && k < |Pieces(text, cuts)|
    ensures 0 < |Pieces(text, cuts)[k]| <= maxChars
    ensures Trimmed(Pieces(text, cuts)[k])
  {
    var from := ChunksComeFromCuts(text, cuts);
    CutsAdjoin(text, maxChars, overlap, cuts, from[k]);
    PieceFits(text, cuts[from[k]]);
  }

  lemma PieceFits(text: seq<Byte>, c: Span)
    requires Within(text, c) && Piece(text, c) != []
    ensures |Piece(text, c)| <= c.end - c.start && Trimmed(Piece(text, c))
  {
    TrimmedPart(text, Trim(text, c));
  }
}
