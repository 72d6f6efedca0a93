/** Splitting a long document in two near its middle, at a boundary that suits its content.

  A document is its bytes; a character here stands for one byte. */
module Splitter {
  import opened Wrappers

  datatype Strategy = Paragraph | Sql | LogEntry | Sentence

  // ---------------------------------------------------------------- boundaries

  predicate SqlEnd(s: string, i: int) { 0 <= i < |s| && s[i] == ';' }
  predicate LineEnd(s: string, i: int) { 0 <= i < |s| && s[i] == '\n' }
  predicate ParagraphEnd(s: string, i: int) { 0 <= i < |s| - 1 && s[i] == '\n' && s[i + 1] == '\n' }
  predicate SentenceEnd(s: string, i: int) {
    1 <= i < |s| - 1 && (s[i] == '.' || s[i] == '!' || s[i] == '?') && s[i + 1] == ' '
  }

  type Boundary = (string, int) -> bool

  function Distance(i: int, mid: int): nat {
    if i >= mid then i - mid else mid - i
  }

  /** The boundary the searches aim for: in the window, at the least distance from the middle, and on
    the right where two are equally far. */
  ghost predicate Nearest(b: Boundary, s: string, mid: int, window: int, i: int) {
    b(s, i) && Distance(i, mid) < window &&
    forall j :: b(s, j) && Distance(j, mid) < window ==>
      Distance(i, mid) < Distance(j, mid) || (Distance(i, mid) == Distance(j, mid) && j <= i)
  }

  ghost predicate NoneInWindow(b: Boundary, s: string, mid: int, window: int) {
    forall j :: b(s, j) ==> Distance(j, mid) >= window
  }

  /** Where a search cuts: after the nearest boundary, or at `otherwise` if the window has none. */
  ghost predicate CutsAt(b: Boundary, width: nat, s: string, mid: int, window: int, otherwise: int, r: int) {
    CutsAfter(b, width, s, mid, window, r) || (NoneInWindow(b, s, mid, window) && r == otherwise)
  }

  ghost predicate CutsAfter(b: Boundary, width: nat, s: string, mid: int, window: int, r: int) {
    exists i :: Nearest(b, s, mid, window, i) && r == i + width
  }

  /** Paragraph ends, or line ends when the window has no paragraph end. */
  ghost predicate CutsParagraph(s: string, mid: int, r: int) {
    || CutsAfter(ParagraphEnd, 2, s, mid, |s| / 2 - 1, r)
    || (NoneInWindow(ParagraphEnd, s, mid, |s| / 2 - 1) && CutsAt(LineEnd, 1, s, mid, |s| / 2, mid, r))
  }

  /** The cut is determined. */
  lemma CutIsUnique(b: Boundary, width: nat, s: string, mid: int, window: int, otherwise: int, r: int, q: int)
    requires CutsAt(b, width, s, mid, window, otherwise, r) && CutsAt(b, width, s, mid, window, otherwise, q)
    ensures r == q
  {
    if i :| Nearest(b, s, mid, window, i) && r == i + width {
      if j :| Nearest(b, s, mid, window, j) && q == j + width {
        assert i == j;
      }
    }
  }

  // What the four searches look for: after a ";", a line end, a blank line, or a sentence end and its space;
  // whichever is nearest to the middle among those nearer than half the document

  lemma SqlCut(s: string, mid: int, r: int, j: int)
    requires CutsAt(SqlEnd, 1, s, mid, |s| / 2, mid, r)
    ensures r == mid || (0 < r <= |s| && s[r - 1] == ';')
    ensures 0 <= j < |s| && s[j] == ';' && Distance(j, mid) < |s| / 2 ==>
      0 < r <= |s| && s[r - 1] == ';' && Distance(r - 1, mid) <= Distance(j, mid)
  {
    assert 0 <= j < |s| && s[j] == ';' ==> SqlEnd(s, j);
  }

  lemma LineCut(s: string, mid: int, r: int, j: int)
    requires CutsAt(LineEnd, 1, s, mid, |s| / 2, mid, r)
    ensures r == mid || (0 < r <= |s| && s[r - 1] == '\n')
    ensures 0 <= j < |s| && s[j] == '\n' && Distance(j, mid) < |s| / 2 ==>
      0 < r <= |s| && s[r - 1] == '\n' && Distance(r - 1, mid) <= Distance(j, mid)
  {
    assert 0 <= j < |s| && s[j] == '\n' ==> LineEnd(s, j);
  }

  lemma ParagraphCut(s: string, mid: int, r: int, j: int)
    requires CutsParagraph(s, mid, r)
    ensures r == mid || (0 < r <= |s| && s[r - 1] == '\n')
    ensures 0 <= j < |s| - 1 && s[j] == '\n' && s[j + 1] == '\n' && Distance(j, mid) < |s| / 2 - 1 ==>
      2 <= r <= |s| && s[r - 2] == '\n' && s[r - 1] == '\n' && Distance(r - 2, mid) <= Distance(j, mid)
  {
    assert 0 <= j < |s| - 1 && s[j] == '\n' && s[j + 1] == '\n' ==> ParagraphEnd(s, j);
  }

  lemma SentenceCut(s: string, mid: int, r: int, j: int)
    requires CutsAt(SentenceEnd, 2, s, mid, |s| / 2 - 1, mid, r)
    ensures r == mid || (2 < r <= |s| && s[r - 2] in ".!?" && s[r - 1] == ' ')
    ensures 1 <= j < |s| - 1 && s[j] in ".!?" && s[j + 1] == ' ' && Distance(j, mid) < |s| / 2 - 1 ==>
      2 < r <= |s| && s[r - 2] in ".!?" && s[r - 1] == ' ' && Distance(r - 2, mid) <= Distance(j, mid)
  {
    assert 1 <= j < |s| - 1 && s[j] in ".!?" && s[j + 1] == ' ' ==> SentenceEnd(s, j);
  }

  method NearestSqlBoundary(s: string, mid: nat) returns (r: int)
    ensures CutsAt(SqlEnd, 1, s, mid, |s| / 2, mid, r)
  {
    for delta := 0 to |s| / 2
      invariant NoneInWindow(SqlEnd, s, mid, delta)
    {
      var i := mid + delta;
      if i < |s| && s[i] == ';' {
        assert Nearest(SqlEnd, s, mid, |s| / 2, i);
        return i + 1;
      }
      i := mid - delta;
      if i >= 0 && i < |s| && s[i] == ';' {
        assert Nearest(SqlEnd, s, mid, |s| / 2, i);
        return i + 1;
      }
    }
    r := mid;
  }

  method NearestLineBoundary(s: string, mid: nat) returns (r: int)
    ensures CutsAt(LineEnd, 1, s, mid, |s| / 2, mid, r)
  {
    for delta := 0 to |s| / 2
      invariant NoneInWindow(LineEnd, s, mid, delta)
    {
      var i := mid + delta;
      if i < |s| && s[i] == '\n' {
        assert Nearest(LineEnd, s, mid, |s| / 2, i);
        return i + 1;
      }
      i := mid - delta;
      if i >= 0 && i < |s| && s[i] == '\n' {
        assert Nearest(LineEnd, s, mid, |s| / 2, i);
        return i + 1;
      }
    }
    r := mid;
  }

  method NearestParagraphBoundary(s: string, mid: nat) returns (r: int)
    requires |s| >= 2
    ensures CutsParagraph(s, mid, r)
  {
    for delta := 0 to |s| / 2 - 1
      invariant NoneInWindow(ParagraphEnd, s, mid, delta)
    {
      var i := mid + delta;
      if i + 1 < |s| && s[i] == '\n' && s[i + 1] == '\n' {
        assert Nearest(ParagraphEnd, s, mid, |s| / 2 - 1, i);
        return i + 2;
      }
      i := mid - delta;
      if i >= 0 && i + 1 < |s| && s[i] == '\n' && s[i + 1] == '\n' {
        assert Nearest(ParagraphEnd, s, mid, |s| / 2 - 1, i);
        return i + 2;
      }
    }
    r := NearestLineBoundary(s, mid);
  }

  method NearestSentenceBoundary(s: string, mid: nat) returns (r: int)
    requires |s| >= 2
    ensures CutsAt(SentenceEnd, 2, s, mid, |s| / 2 - 1, mid, r)
  {
    for delta := 0 to |s| / 2 - 1
      invariant NoneInWindow(SentenceEnd, s, mid, delta)
    {
      var i := mid + delta;
      if 1 <= i && i + 1 < |s| && (s[i] == '.' || s[i] == '!' || s[i] == '?') && s[i + 1] == ' ' {
        assert Nearest(SentenceEnd, s, mid, |s| / 2 - 1, i);
        return i + 2;
      }
      i := mid - delta;
      if 1 <= i && i + 1 < |s| && (s[i] == '.' || s[i] == '!' || s[i] == '?') && s[i + 1] == ' ' {
        assert Nearest(SentenceEnd, s, mid, |s| / 2 - 1, i);
        return i + 2;
      }
    }
    r := mid;
  }

  // "Nearest" is about the boundary, not about the cut

  /** The cut can be farther from the middle than another boundary's, but by no more than twice the
    boundary's width. */
  lemma CutIsNearlyNearest(b: Boundary, width: nat, s: string, mid: int, window: int, i: int, j: int)
    requires Nearest(b, s, mid, window, i) && b(s, j) && Distance(j, mid) < window
    ensures Distance(i + width, mid) <= Distance(j + width, mid) + 2 * width
  {}

  ghost predicate InWindow(b: Boundary, s: string, mid: int, window: int, j: int) {
    b(s, j) && Distance(j, mid) < window
  }

  /** A boundary on the left whose cut is nearer than that of boundary i on the right. */
  ghost predicate Beaten(b: Boundary, width: nat, s: string, mid: int, window: int, i: int) {
    exists j :: InWindow(b, s, mid, window, j) && 2 * mid - i - 2 * width < j < i
  }

  ghost predicate NoNearerCut(b: Boundary, width: nat, s: string, mid: int, window: int, cut: int) {
    forall j :: InWindow(b, s, mid, window, j) ==> Distance(cut, mid) <= Distance(j + width, mid)
  }

  /** The cut is the nearest of all cuts after boundaries in the window exactly when it is not beyond
    the middle, or the window has no boundary strictly between the mirror image of the chosen one,
    moved left by twice the width, and the chosen one. */
  lemma CutIsNearestIff(b: Boundary, width: nat, s: string, mid: int, window: int, i: int)
    requires Nearest(b, s, mid, window, i)
    ensures NoNearerCut(b, width, s, mid, window, i + width) <==> i + width <= mid || !Beaten(b, width, s, mid, window, i)
  {
    if i + width > mid && Beaten(b, width, s, mid, window, i) {
      var j :| InWindow(b, s, mid, window, j) && 2 * mid - i - 2 * width < j < i;
      assert Distance(j + width, mid) < Distance(i + width, mid);
    }
  }

  /** When the two ";" of a document are equally far from its middle, the cut is made after the right
    one, two bytes farther from the middle than the cut after the left one. */
  lemma FartherCutChosen(s: string, d: nat)
    requires 0 < d < |s| / 2 && |s| % 2 == 1
    requires forall i :: SqlEnd(s, i) <==> i == |s| / 2 - d || i == |s| / 2 + d
    ensures CutsAt(SqlEnd, 1, s, |s| / 2, |s| / 2, |s| / 2, |s| / 2 + d + 1)
    ensures Distance(|s| / 2 + d + 1, |s| / 2) == Distance(|s| / 2 - d + 1, |s| / 2) + 2
  {
    assert Nearest(SqlEnd, s, |s| / 2, |s| / 2, |s| / 2 + d);
  }

  // ---------------------------------------------------------------- the strategy

  predicate Contains(s: string, sub: string) {
    exists i :: 0 <= i <= |s| && OccursAt(s, sub, i)
  }

  predicate OccursAt(s: string, sub: string, i: nat) {
    i + |sub| <= |s| && s[i..i + |sub|] == sub
  }

  function Upper(s: string): string {
    seq(|s|, i requires 0 <= i < |s| => if 'a' <= s[i] <= 'z' then (s[i] as int - 32) as char else s[i])
  }

  function DetectSplitStrategy(content: string): Strategy {
    var prefix := if |content| > 512 then content[..512] else content;
    var upper := Upper(prefix);
    if Contains(upper, "SELECT ") || Contains(upper, "INSERT ") || Contains(upper, "UPDATE ") ||
       Contains(upper, "CREATE TABLE") || Contains(upper, "ALTER TABLE") || Contains(upper, "DROP ")
    then Sql
    else if Contains(prefix, " ERROR ") || Contains(prefix, " WARN ") || Contains(prefix, " INFO ") || Contains(prefix, " DEBUG ")
    then LogEntry
    else if Contains(content, "\n\n") then Paragraph
    else Sentence
  }

  /** The first 512 bytes have the keyword, in upper or lower case. */
  ghost predicate Mentions(s: string, word: string) {
    exists i :: 0 <= i <= |s| && MentionsAt(s, word, i)
  }

  predicate MentionsAt(s: string, word: string, i: nat) {
    i + |word| <= |s| && i + |word| <= 512 && forall k :: 0 <= k < |word| ==>
      s[i + k] == word[k] || ('A' <= word[k] <= 'Z' && s[i + k] as int == word[k] as int + 32)
  }

  predicate NoLowerCase(word: string) {
    forall k :: 0 <= k < |word| ==> !('a' <= word[k] <= 'z')
  }

  lemma OccursIffMentioned(s: string, word: string)
    requires NoLowerCase(word)
    ensures Contains(Upper(if |s| > 512 then s[..512] else s), word) <==> Mentions(s, word)
  {
    var prefix := if |s| > 512 then s[..512] else s;
    forall i: nat ensures OccursAt(Upper(prefix), word, i) <==> MentionsAt(s, word, i) {
      if i + |word| <= |prefix| {
        var part := Upper(prefix)[i..i + |word|];
        if MentionsAt(s, word, i) {
          assert forall k :: 0 <= k < |word| ==> part[k] == word[k];
          assert part == word;
        }
        if part == word {
          forall k | 0 <= k < |word|
            ensures s[i + k] == word[k] || ('A' <= word[k] <= 'Z' && s[i + k] as int == word[k] as int + 32)
          {
            assert part[k] == Upper(prefix)[i + k] && prefix[i + k] == s[i + k];
          }
        }
      }
    }
  }

  /** The strategy: SQL and log lines by their keywords in the first 512 bytes, then paragraphs if there is a
    blank line anywhere, else sentences. */
  lemma StrategyMeans(s: string)
    ensures DetectSplitStrategy(s).Sql? <==>
      Mentions(s, "SELECT ") || Mentions(s, "INSERT ") || Mentions(s, "UPDATE ") ||
      Mentions(s, "CREATE TABLE") || Mentions(s, "ALTER TABLE") || Mentions(s, "DROP ")
    ensures var head := if |s| > 512 then s[..512] else s;
      var marked := Contains(head, " ERROR ") || Contains(head, " WARN ") || Contains(head, " INFO ") || Contains(head, " DEBUG ");
      DetectSplitStrategy(s).LogEntry? <==> !DetectSplitStrategy(s).Sql? && marked
    ensures DetectSplitStrategy(s).Paragraph? <==>
      !DetectSplitStrategy(s).Sql? && !DetectSplitStrategy(s).LogEntry? && Contains(s, "\n\n")
  {
    OccursIffMentioned(s, "SELECT ");
    OccursIffMentioned(s, "INSERT ");
    OccursIffMentioned(s, "UPDATE ");
    OccursIffMentioned(s, "CREATE TABLE");
    OccursIffMentioned(s, "ALTER TABLE");
    OccursIffMentioned(s, "DROP ");
    hide Contains, Upper, Mentions;
  }

  /** Where a strategy cuts. */
  ghost predicate Midpoint(s: string, strategy: Strategy, r: int) {
    var mid := |s| / 2;
    match strategy
    case Sql => CutsAt(SqlEnd, 1, s, mid, |s| / 2, mid, r)
    case LogEntry => CutsAt(LineEnd, 1, s, mid, |s| / 2, mid, r)
    case Paragraph => CutsParagraph(s, mid, r)
    case Sentence => CutsAt(SentenceEnd, 2, s, mid, |s| / 2 - 1, mid, r)
  }

  method FindMidpoint(s: string, strategy: Strategy) returns (r: int)
    ensures |s| < 2 ==> r == 0
    ensures |s| >= 2 ==> Midpoint(s, strategy, r) && 0 <= r <= |s|
    ensures |s| >= 2 && strategy.Sql? ==> CutsAt(SqlEnd, 1, s, |s| / 2, |s| / 2, |s| / 2, r)
    ensures |s| >= 2 && strategy.LogEntry? ==> CutsAt(LineEnd, 1, s, |s| / 2, |s| / 2, |s| / 2, r)
    ensures |s| >= 2 && strategy.Paragraph? ==> CutsParagraph(s, |s| / 2, r)
    ensures |s| >= 2 && strategy.Sentence? ==> CutsAt(SentenceEnd, 2, s, |s| / 2, |s| / 2 - 1, |s| / 2, r)
  {
    var mid := |s| / 2;
    if mid == 0 {
      return 0;
    }
    match strategy
    case Sql => r := NearestSqlBoundary(s, mid);
    case LogEntry => r := NearestLineBoundary(s, mid);
    case Paragraph => r := NearestParagraphBoundary(s, mid);
    case Sentence => r := NearestSentenceBoundary(s, mid);
  }

  // ---------------------------------------------------------------- the split

  datatype Split = Split(left: string, right: string, strategy: Strategy) | WrongCount | Blank | TooShort

  predicate IsSpace(c: char) {
    c == ' ' || c == '\t' || c == '\n' || c == '\r' || c == '\U{000B}' || c == '\U{000C}'
  }

  /** The two halves put together are the document, neither is empty, and the cut is the strategy's
    unless that would leave a half empty: then it is the exact middle. */
  method SplitDocument(content: string, maxSplits: int) returns (r: Split)
    ensures r.WrongCount? <==> maxSplits != 2
    ensures r.Blank? <==> maxSplits == 2 && forall i :: 0 <= i < |content| ==> IsSpace(content[i])
    ensures r.TooShort? <==> maxSplits == 2 && |content| < 64 && exists i :: 0 <= i < |content| && !IsSpace(content[i])
    ensures r.Split? ==> r.left + r.right == content && r.left != "" && r.right != ""
    ensures r.Split? ==> r.strategy == DetectSplitStrategy(content)
    ensures r.Split? ==>
      exists cut :: Midpoint(content, r.strategy, cut) && |r.left| == if 0 < cut < |content| then cut else |content| / 2
  {
    hide DetectSplitStrategy, Midpoint;
    if maxSplits != 2 {
      return WrongCount;
    }
    var blank := IsBlank(content);
    if blank {
      return Blank;
    }
    if |content| < 64 {
      return TooShort;
    }
    var strategy := DetectSplitStrategy(content);
    var mid := FindMidpoint(content, strategy);
    ghost var cut := mid;
    if mid <= 0 || mid >= |content| {
      mid := |content| / 2;
    }
    r := Split(content[..mid], content[mid..], strategy);
    assert Midpoint(content, strategy, cut);
  }

  method IsBlank(s: string) returns (blank: bool)
    ensures blank <==> forall i :: 0 <= i < |s| ==> IsSpace(s[i])
  {
    for i := 0 to |s|
      invariant forall j :: 0 <= j < i ==> IsSpace(s[j])
    {
      if !IsSpace(s[i]) {
        return false;
      }
    }
    blank := true;
  }

  /** Every document that is not refused is split in the same way whenever it is split. */
  lemma MidpointIsUnique(s: string, strategy: Strategy, r: int, q: int)
    requires Midpoint(s, strategy, r) && Midpoint(s, strategy, q)
    ensures r == q
  {
    var mid := |s| / 2;
    match strategy {
      case Sql => CutIsUnique(SqlEnd, 1, s, mid, mid, mid, r, q);
      case LogEntry => CutIsUnique(LineEnd, 1, s, mid, mid, mid, r, q);
      case Paragraph =>
        if CutsAfter(ParagraphEnd, 2, s, mid, mid - 1, r) || CutsAfter(ParagraphEnd, 2, s, mid, mid - 1, q) {
          CutIsUnique(ParagraphEnd, 2, s, mid, mid - 1, r, r, q);
        } else {
          CutIsUnique(LineEnd, 1, s, mid, mid, mid, r, q);
        }
      case Sentence => CutIsUnique(SentenceEnd, 2, s, mid, mid - 1, mid, r, q);
    }
  }
}
