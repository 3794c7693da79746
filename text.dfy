/**
 * The Swift string primitives the reaction engine relies on: the two whitespace
 * tests `Character.isWhitespace` and `CharacterSet.whitespacesAndNewlines`, `lowercased()`,
 * `prefix(_:)`, `filter`, `trimmingCharacters(in:)` and
 * `split(separator:maxSplits:omittingEmptySubsequences:)` with one split and empty
 * pieces omitted. A Dafny `char` stands for one Swift `Character`.
 */
module Text {

  /** `Character.isWhitespace`: the Unicode White_Space characters. */
  predicate IsWhitespace(c: char)
    ensures c < '\U{80}' ==> (IsWhitespace(c) <==> c == ' ' || '\t' <= c <= '\r')
    ensures IsWhitespace(c) ==> c != Separator && !IsUpper(c)
  {
    || c == ' '
    || '\t' <= c <= '\r'
    || c == '\U{85}'
    || c == '\U{A0}'
    || c == '\U{1680}'
    || '\U{2000}' <= c <= '\U{200A}'
    || c == '\U{2028}'
    || c == '\U{2029}'
    || c == '\U{202F}'
    || c == '\U{205F}'
    || c == '\U{3000}'
  }

  predicate IsUpper(c: char) {
    'A' <= c <= 'Z'
  }

  /** Lower-cases one character (Latin capital letters only). */
  function LowerChar(c: char): (r: char)
    ensures !IsUpper(r)
    ensures !IsUpper(c) ==> r == c
    ensures IsUpper(c) ==> 'a' <= r <= 'z' && r as int - 'a' as int == c as int - 'A' as int
  {
    if IsUpper(c) then (c as int - 'A' as int + 'a' as int) as char else c
  }

  /** `s.lowercased()`: the same length, every character lower-cased. */
  function Lower(s: string): (r: string)
    ensures |r| == |s|
    ensures forall i :: 0 <= i < |s| ==> r[i] == LowerChar(s[i])
  {
    seq(|s|, i requires 0 <= i < |s| => LowerChar(s[i]))
  }

  /** Lower-casing leaves whitespace as it is. */
  lemma LowerOfWhitespace(w: string)
    requires AllWhitespace(w)
    ensures Lower(w) == w
  {
    forall i | 0 <= i < |w| ensures Lower(w)[i] == w[i] {
      assert !IsUpper(w[i]);
    }
  }

  /** Lower-casing works character by character, so it distributes over concatenation. */
  lemma LowerAppend(a: string, b: string)
    ensures Lower(a + b) == Lower(a) + Lower(b)
  {
    assert forall i :: 0 <= i < |a + b| ==> Lower(a + b)[i] == (Lower(a) + Lower(b))[i] by {
      forall i | 0 <= i < |a + b| ensures Lower(a + b)[i] == (Lower(a) + Lower(b))[i] {
        if i < |a| { assert (a + b)[i] == a[i]; } else { assert (a + b)[i] == b[i - |a|]; }
      }
    }
  }

  /** `s.prefix(n)`: the first `n` characters, or all of `s` when it is shorter. */
  function Prefix(s: string, n: nat): (r: string)
    ensures |r| == if |s| < n then |s| else n
    ensures r <= s
  {
    if |s| < n then s else s[..n]
  }

  /** `s.filter { !$0.isWhitespace }`: `s` with every whitespace character removed, in order. */
  function RemoveWhitespace(s: string): (r: string)
    ensures |r| <= |s|
    ensures forall i :: 0 <= i < |r| ==> !IsWhitespace(r[i])
    ensures forall c :: c in r ==> c in s
    ensures (forall i :: 0 <= i < |s| ==> !IsWhitespace(s[i])) ==> r == s
  {
    if s == [] then []
    else if IsWhitespace(s[0]) then RemoveWhitespace(s[1..])
    else [s[0]] + RemoveWhitespace(s[1..])
  }

  predicate AllWhitespace(s: string) {
    forall i :: 0 <= i < |s| ==> IsWhitespace(s[i])
  }

  /** Removing whitespace distributes over concatenation. */
  lemma {:induction false} RemoveWhitespaceAppend(a: string, b: string)
    ensures RemoveWhitespace(a + b) == RemoveWhitespace(a) + RemoveWhitespace(b)
  {
    if a != [] {
      assert (a + b)[1..] == a[1..] + b;
      RemoveWhitespaceAppend(a[1..], b);
    } else {
      assert a + b == b;
    }
  }

  /** Whitespace alone filters to nothing. */
  lemma {:induction false} RemoveWhitespaceOfBlank(gap: string)
    requires AllWhitespace(gap)
    ensures RemoveWhitespace(gap) == []
  {
    if gap != [] {
      RemoveWhitespaceOfBlank(gap[1..]);
    }
  }

  /** A run of whitespace anywhere filters away. */
  lemma RemoveWhitespaceDropsBlank(x: string, w: string, y: string)
    requires AllWhitespace(w)
    ensures RemoveWhitespace(x + w + y) == RemoveWhitespace(x + y)
  {
    RemoveWhitespaceAppend(x + w, y);
    RemoveWhitespaceAppend(x, w);
    RemoveWhitespaceOfBlank(w);
    assert RemoveWhitespace(x + w) == RemoveWhitespace(x);
    RemoveWhitespaceAppend(x, y);
  }

  /** Two words with whitespace after each filter to the words run together. */
  lemma RemoveWhitespaceOfWords(w1: string, gap1: string, w2: string, gap2: string)
    requires forall i :: 0 <= i < |w1| ==> !IsWhitespace(w1[i])
    requires forall i :: 0 <= i < |w2| ==> !IsWhitespace(w2[i])
    requires AllWhitespace(gap1) && AllWhitespace(gap2)
    ensures RemoveWhitespace(w1 + gap1 + w2 + gap2) == w1 + w2
  {
    var first := w1 + gap1;
    var both := first + w2;
    RemoveWhitespaceAppend(w1, gap1);
    RemoveWhitespaceOfBlank(gap1);
    assert RemoveWhitespace(first) == w1;
    RemoveWhitespaceAppend(first, w2);
    assert RemoveWhitespace(both) == w1 + w2;
    RemoveWhitespaceAppend(both, gap2);
    RemoveWhitespaceOfBlank(gap2);
  }

  /**
   * `CharacterSet.whitespacesAndNewlines` as CoreFoundation defines it: the
   * whitespace set (space, tab, U+00A0, U+1680, U+2000 to U+200B, U+202F, U+205F,
   * U+3000) and the newline set (U+000A to U+000D, U+0085, U+2028, U+2029).
   * It differs from `Character.isWhitespace` in U+200B ZERO WIDTH SPACE alone.
   */
  predicate IsSpaceOrNewline(c: char)
    ensures IsSpaceOrNewline(c) <==> IsWhitespace(c) || c == '\U{200B}'
  {
    || c == ' '
    || c == '\t'
    || c == '\U{A0}'
    || c == '\U{1680}'
    || '\U{2000}' <= c <= '\U{200B}'
    || c == '\U{202F}'
    || c == '\U{205F}'
    || c == '\U{3000}'
    || '\n' <= c <= '\r'
    || c == '\U{85}'
    || c == '\U{2028}'
    || c == '\U{2029}'
  }

  /** True when `s` has no space or newline of `whitespacesAndNewlines` at either end. */
  predicate IsTrimmed(s: string) {
    s != [] ==> !IsSpaceOrNewline(s[0]) && !IsSpaceOrNewline(s[|s| - 1])
  }

  predicate AllSpaceOrNewline(s: string) {
    forall i :: 0 <= i < |s| ==> IsSpaceOrNewline(s[i])
  }

  /** Drops the leading spaces and newlines of `s`. */
  function TrimStart(s: string): (r: string)
    ensures |r| <= |s| && r == s[|s| - |r|..]
    ensures r != [] ==> !IsSpaceOrNewline(r[0])
    ensures forall i :: 0 <= i < |s| - |r| ==> IsSpaceOrNewline(s[i])
  {
    if s != [] && IsSpaceOrNewline(s[0]) then TrimStart(s[1..]) else s
  }

  /** Drops the trailing spaces and newlines of `s`. */
  function TrimEnd(s: string): (r: string)
    ensures |r| <= |s| && r == s[..|r|]
    ensures r != [] ==> !IsSpaceOrNewline(r[|r| - 1])
    ensures forall i :: |r| <= i < |s| ==> IsSpaceOrNewline(s[i])
  {
    if s != [] && IsSpaceOrNewline(s[|s| - 1]) then TrimEnd(s[..|s| - 1]) else s
  }

  /** `s.trimmingCharacters(in: .whitespacesAndNewlines)`. */
  function Trim(s: string): (r: string)
    ensures IsTrimmed(r)
    ensures |r| <= |s|
    ensures forall c :: c in r ==> c in s
    ensures r == [] <==> AllSpaceOrNewline(s)
  {
    TrimEnd(TrimStart(s))
  }

  /** Trimming recovers any trimmed core from padding of spaces and newlines on both sides. */
  lemma {:induction false} TrimPadded(left: string, core: string, right: string)
    requires AllSpaceOrNewline(left) && AllSpaceOrNewline(right) && IsTrimmed(core)
    ensures Trim(left + core + right) == core
  {
    if core == [] {
      assert AllSpaceOrNewline(left + core + right);
    } else {
      assert left + core + right == left + (core + right);
      TrimStartPadded(left, core + right);
      TrimEndPadded(core, right);
    }
  }

  lemma {:induction false} TrimStartPadded(left: string, t: string)
    requires AllSpaceOrNewline(left) && (t == [] || !IsSpaceOrNewline(t[0]))
    ensures TrimStart(left + t) == t
  {
    if left != [] {
      assert (left + t)[1..] == left[1..] + t;
      TrimStartPadded(left[1..], t);
    }
  }

  lemma {:induction false} TrimEndPadded(t: string, right: string)
    requires AllSpaceOrNewline(right) && (t == [] || !IsSpaceOrNewline(t[|t| - 1]))
    ensures TrimEnd(t + right) == t
  {
    if right == [] {
      assert t + right == t;
    } else {
      var shorter := right[..|right| - 1];
      assert (t + right)[..|t + right| - 1] == t + shorter;
      TrimEndPadded(t, shorter);
    }
  }

  /** Trimming is idempotent. */
  lemma TrimIdempotent(s: string)
    ensures Trim(Trim(s)) == Trim(s)
  {
    TrimPadded([], Trim(s), []);
    assert [] + Trim(s) + [] == Trim(s);
  }

  /** The separator the response is split at. */
  const Separator: char := ':'

  /** `n` separators in a row. */
  function Separators(n: nat): (r: string)
    ensures |r| == n
    ensures forall i :: 0 <= i < n ==> r[i] == Separator
  {
    seq(n, _ => Separator)
  }

  /** The number of separators `s` starts with. */
  function LeadingSeparators(s: string): (k: nat)
    ensures k <= |s|
    ensures s[..k] == Separators(k)
    ensures k < |s| ==> s[k] != Separator
  {
    if s != [] && s[0] == Separator then 1 + LeadingSeparators(s[1..]) else 0
  }

  /** The index of the first separator in `s`, or `|s|` when there is none. */
  function FirstSeparator(s: string): (j: nat)
    ensures j <= |s|
    ensures Separator !in s[..j]
    ensures j < |s| ==> s[j] == Separator
  {
    if s == [] || s[0] == Separator then 0 else 1 + FirstSeparator(s[1..])
  }

  /**
   * `s.split(separator: ":", maxSplits: 1)`, which omits empty pieces: separators
   * that would end an empty piece are skipped without using up the split, the
   * first separator after a non-empty piece splits, and an empty rest is omitted.
   */
  function SplitOnce(s: string): (parts: seq<string>)
    ensures |parts| <= 2
    ensures forall i :: 0 <= i < |parts| ==> parts[i] != []
    ensures |parts| >= 1 ==> Separator !in parts[0]
    ensures |parts| == 1 ==> var rest := s[LeadingSeparators(s)..];
      rest == parts[0] || rest == parts[0] + [Separator]
    ensures |parts| == 2 ==> s[LeadingSeparators(s)..] == parts[0] + [Separator] + parts[1]
  {
    var k := LeadingSeparators(s);
    if k == |s| then [] else SplitAtFirst(s[k..])
  }

  /** A text has no pieces exactly when it is all separators. */
  lemma SplitOnceEmpty(s: string)
    ensures SplitOnce(s) == [] <==> s == Separators(|s|)
  {
    var k := LeadingSeparators(s);
    if k == |s| {
      assert s == s[..k];
    } else {
      assert s[k] != Separators(|s|)[k];
    }
  }

  /** The pieces of a text that starts with a non-separator: before and after its first separator. */
  function SplitAtFirst(t: string): (parts: seq<string>)
    requires t != [] && t[0] != Separator
    ensures 1 <= |parts| <= 2
    ensures forall i :: 0 <= i < |parts| ==> parts[i] != []
    ensures Separator !in parts[0]
    ensures |parts| == 1 ==> t == parts[0] || t == parts[0] + [Separator]
    ensures |parts| == 2 ==> t == parts[0] + [Separator] + parts[1]
  {
    var j := FirstSeparator(t);
    if j == |t| then
      assert t[..j] == t;
      [t]
    else if j + 1 == |t| then
      assert t == t[..j] + [Separator];
      [t[..j]]
    else
      assert t == t[..j] + [Separator] + t[j + 1..];
      [t[..j], t[j + 1..]]
  }

  /** Splitting undoes joining: whatever separators lead, the first separator after the head splits. */
  lemma SplitOnceJoined(n: nat, head: string, rest: string)
    requires head != [] && Separator !in head && rest != []
    ensures SplitOnce(Separators(n) + head + [Separator] + rest) == [head, rest]
  {
    var t := head + [Separator] + rest;
    assert Separators(n) + head + [Separator] + rest == Separators(n) + t;
    assert t[0] == head[0];
    SplitOnceAfterLead(n, t);
    SplitAtFirstJoined(head, rest);
  }

  /** Leading separators in front of a text that starts with a non-separator are skipped. */
  lemma SplitOnceAfterLead(n: nat, t: string)
    requires t != [] && t[0] != Separator
    ensures SplitOnce(Separators(n) + t) == SplitAtFirst(t)
  {
    LeadingSeparatorsOf(n, t);
    assert (Separators(n) + t)[n..] == t;
  }

  /** A colon-free head, a separator and a non-empty rest split into the head and the rest. */
  lemma SplitAtFirstJoined(head: string, rest: string)
    requires head != [] && Separator !in head && rest != []
    ensures SplitAtFirst(head + [Separator] + rest) == [head, rest]
  {
    var t := head + [Separator] + rest;
    assert head + ([Separator] + rest) == t;
    FirstSeparatorOf(head, [Separator] + rest);
    assert t[..|head|] == head;
    assert t[|head| + 1..] == rest;
  }

  lemma {:induction false} LeadingSeparatorsOf(n: nat, t: string)
    requires t != [] && t[0] != Separator
    ensures LeadingSeparators(Separators(n) + t) == n
  {
    if n > 0 {
      assert (Separators(n) + t)[1..] == Separators(n - 1) + t;
      LeadingSeparatorsOf(n - 1, t);
    } else {
      assert Separators(n) + t == t;
    }
  }

  lemma {:induction false} FirstSeparatorOf(head: string, t: string)
    requires Separator !in head && t != [] && t[0] == Separator
    ensures FirstSeparator(head + t) == |head|
  {
    if head != [] {
      assert (head + t)[1..] == head[1..] + t;
      FirstSeparatorOf(head[1..], t);
    } else {
      assert head + t == t;
    }
  }
}
