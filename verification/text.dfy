/**
  Text helpers that stand for the Python string operations the wrapper uses:
  `str(n)` of an int, the `:>5` right alignment, `' '.join(words)` and
  repeated `+=` on a string buffer.
 */
module Text {

  /** The decimal digit character for 0 <= d < 10. */
  function Digit(d: nat): (c: char)
    requires d < 10
    ensures '0' <= c <= '9'
  {
    ('0' as int + d) as char
  }

  predicate IsDigits(s: string) {
    forall i :: 0 <= i < |s| ==> '0' <= s[i] <= '9'
  }

  /** Decimal rendering of a natural number, without leading zeros (Python `str(n)` for n >= 0). */
  function NatToString(n: nat): (s: string)
    ensures 1 <= |s| && IsDigits(s)
    ensures (|s| == 1) == (n < 10)
    ensures s[0] == '0' <==> n == 0
  {
    if n < 10 then [Digit(n)] else NatToString(n / 10) + [Digit(n % 10)]
  }

  /** Value of a non-empty string of decimal digits. */
  function ParseDigits(s: string): nat
    requires IsDigits(s)
  {
    if s == [] then 0 else 10 * ParseDigits(s[..|s| - 1]) + (s[|s| - 1] as int - '0' as int)
  }

  /** Reading back a rendered number gives the number. */
  lemma {:induction false} ParseNatToString(n: nat)
    ensures ParseDigits(NatToString(n)) == n
  {
    var s := NatToString(n);
    if n >= 10 {
      ParseNatToString(n / 10);
      assert s[..|s| - 1] == NatToString(n / 10);
    }
  }

  /** Python `str(n)` for any int: a minus sign, then the digits of the magnitude. */
  function IntToString(n: int): (s: string)
    ensures 1 <= |s|
    ensures n < 0 <==> s[0] == '-'
    ensures n >= 0 ==> IsDigits(s) && (s[0] == '0' <==> n == 0)
    ensures n < 0 ==> |s| >= 2 && IsDigits(s[1..]) && s[1] != '0'
  {
    if n < 0 then "-" + NatToString(-n) else NatToString(n)
  }

  lemma NatToStringInjective(a: nat, b: nat)
    requires NatToString(a) == NatToString(b)
    ensures a == b
  {
    ParseNatToString(a);
    ParseNatToString(b);
  }

  /** Distinct ints render as distinct strings. */
  lemma IntToStringInjective(a: int, b: int)
    requires IntToString(a) == IntToString(b)
    ensures a == b
  {
    if a < 0 {
      assert NatToString(-a) == IntToString(a)[1..] == IntToString(b)[1..] == NatToString(-b);
      NatToStringInjective(-a, -b);
    } else {
      NatToStringInjective(a, b);
    }
  }

  /** Python's `f"{s:>width}"`: right-aligned in a field of `width` characters, never truncated. */
  function PadLeft(s: string, width: nat): (r: string)
    ensures |r| == if |s| < width then width else |s|
    ensures r[|r| - |s|..] == s
    ensures forall i :: 0 <= i < |r| - |s| ==> r[i] == ' '
  {
    if |s| < width then seq(width - |s|, _ => ' ') + s else s
  }

  /** The number of characters in all the words together. */
  function Letters(words: seq<string>): nat
  {
    if words == [] then 0 else Letters(words[..|words| - 1]) + |words[|words| - 1]|
  }

  /** Python `' '.join(words)`: the words and exactly one separator between each two. */
  function JoinWords(words: seq<string>): (r: string)
    ensures |r| == Letters(words) + (if words == [] then 0 else |words| - 1)
    ensures words != [] ==> r[|r| - |words[|words| - 1]|..] == words[|words| - 1]
  {
    if words == [] then ""
    else if |words| == 1 then words[0]
    else JoinWords(words[..|words| - 1]) + " " + words[|words| - 1]
  }

  /** Where word `k` starts in `JoinWords(words)`: the letters of the words before it, plus one space after each. */
  function WordStart(words: seq<string>, k: nat): nat
    requires k <= |words|
  {
    Letters(words[..k]) + k
  }

  /** A word starts one space after the end of the word before it. */
  lemma WordStartNext(words: seq<string>, k: nat)
    requires k < |words|
    ensures WordStart(words, k + 1) == WordStart(words, k) + |words[k]| + 1
  {
    assert words[..k + 1][..k] == words[..k];
  }

  /** Dropping the last word moves no other word. */
  lemma WordStartInit(words: seq<string>, k: nat)
    requires k < |words|
    ensures WordStart(words, k) == WordStart(words[..|words| - 1], k)
  {
    assert words[..k] == words[..|words| - 1][..k];
  }

  /** A slice that lies within the first part of a concatenation. */
  lemma SliceOfAppend(a: string, b: string, i: nat, j: nat)
    requires i <= j <= |a|
    ensures (a + b)[i..j] == a[i..j]
  {
  }

  /** Character `i` of word `k` sits at offset `i` from the word's start in `' '.join(words)`. */
  lemma {:induction false} JoinWordsChar(words: seq<string>, k: nat, i: nat)
    requires k < |words| && i < |words[k]|
    ensures WordStart(words, k) + i < |JoinWords(words)|
    ensures JoinWords(words)[WordStart(words, k) + i] == words[k][i]
  {
    if |words| == 1 {
      JoinWordsCharOnly(words, i);
    } else if k < |words| - 1 {
      JoinWordsChar(words[..|words| - 1], k, i);
      JoinWordsCharBefore(words, k, i);
    } else {
      JoinWordsCharLast(words, i);
    }
  }

  /** A single word is joined as itself, starting at offset 0. */
  lemma JoinWordsCharOnly(words: seq<string>, i: nat)
    requires |words| == 1 && i < |words[0]|
    ensures WordStart(words, 0) + i < |JoinWords(words)|
    ensures JoinWords(words)[WordStart(words, 0) + i] == words[0][i]
  {
    assert WordStart(words, 0) == 0 by {
      assert words[..0] == [];
    }
    assert JoinWords(words) == words[0];
  }

  /** A character of a word before the last sits where it sits in the join of the words before the last. */
  lemma JoinWordsCharBefore(words: seq<string>, k: nat, i: nat)
    requires k < |words| - 1 && i < |words[k]|
    requires WordStart(words[..|words| - 1], k) + i < |JoinWords(words[..|words| - 1])|
    requires JoinWords(words[..|words| - 1])[WordStart(words[..|words| - 1], k) + i] == words[..|words| - 1][k][i]
    ensures WordStart(words, k) + i < |JoinWords(words)|
    ensures JoinWords(words)[WordStart(words, k) + i] == words[k][i]
  {
    var head := JoinWords(words[..|words| - 1]);
    assert JoinWords(words) == head + " " + words[|words| - 1];
    WordStartInit(words, k);
    IndexInFirst(head, words[|words| - 1], WordStart(words, k) + i);
  }

  /** A character of the last word sits after the join of the others and one space. */
  lemma JoinWordsCharLast(words: seq<string>, i: nat)
    requires |words| > 1 && i < |words[|words| - 1]|
    ensures WordStart(words, |words| - 1) + i < |JoinWords(words)|
    ensures JoinWords(words)[WordStart(words, |words| - 1) + i] == words[|words| - 1][i]
  {
    var head := JoinWords(words[..|words| - 1]);
    assert JoinWords(words) == head + " " + words[|words| - 1];
    assert WordStart(words, |words| - 1) == |head| + 1;
    IndexInSecond(head, words[|words| - 1], i);
  }

  /** An index into the text before the separator. */
  lemma IndexInFirst(a: string, b: string, p: nat)
    requires p < |a|
    ensures p < |a + " " + b| && (a + " " + b)[p] == a[p]
  {
  }

  /** An index into the text after the separator. */
  lemma IndexInSecond(a: string, b: string, i: nat)
    requires i < |b|
    ensures |a| + 1 + i < |a + " " + b| && (a + " " + b)[|a| + 1 + i] == b[i]
  {
  }

  /** Word `k` of `' '.join(words)` ends within the text. */
  lemma WordEndBound(words: seq<string>, k: nat)
    requires k < |words|
    ensures WordStart(words, k) + |words[k]| <= |JoinWords(words)|
  {
    if k < |words| - 1 {
      JoinWordsSpace(words, k);
    } else {
      assert words[..k] == words[..|words| - 1];
    }
  }

  /** Word `k` of `' '.join(words)` sits at its start. */
  lemma JoinWordsPlace(words: seq<string>, k: nat)
    requires k < |words|
    ensures WordStart(words, k) + |words[k]| <= |JoinWords(words)|
    ensures JoinWords(words)[WordStart(words, k)..WordStart(words, k) + |words[k]|] == words[k]
  {
    WordEndBound(words, k);
    var a := WordStart(words, k);
    var slice := JoinWords(words)[a..a + |words[k]|];
    forall i | 0 <= i < |words[k]|
      ensures slice[i] == words[k][i]
    {
      JoinWordsChar(words, k, i);
    }
  }

  /** Word `k` of `' '.join(words)`, when not the last, is followed by a single space. */
  lemma {:induction false} JoinWordsSpace(words: seq<string>, k: nat)
    requires k < |words| - 1
    ensures WordStart(words, k) + |words[k]| < |JoinWords(words)|
    ensures JoinWords(words)[WordStart(words, k) + |words[k]|] == ' '
  {
    if k < |words| - 2 {
      JoinWordsSpace(words[..|words| - 1], k);
      JoinWordsSpaceBefore(words, k);
    } else {
      JoinWordsSpaceLast(words);
    }
  }

  /** The space after a word before the last but one sits where it sits in the join of the words before the last. */
  lemma JoinWordsSpaceBefore(words: seq<string>, k: nat)
    requires k < |words| - 2
    requires WordStart(words[..|words| - 1], k) + |words[..|words| - 1][k]| < |JoinWords(words[..|words| - 1])|
    requires JoinWords(words[..|words| - 1])[WordStart(words[..|words| - 1], k) + |words[..|words| - 1][k]|] == ' '
    ensures WordStart(words, k) + |words[k]| < |JoinWords(words)|
    ensures JoinWords(words)[WordStart(words, k) + |words[k]|] == ' '
  {
    var head := JoinWords(words[..|words| - 1]);
    assert JoinWords(words) == head + " " + words[|words| - 1];
    WordStartInit(words, k);
    IndexInFirst(head, words[|words| - 1], WordStart(words, k) + |words[k]|);
  }

  /** The word before the last is followed by the separator that precedes the last word. */
  lemma JoinWordsSpaceLast(words: seq<string>)
    requires |words| > 1
    ensures WordStart(words, |words| - 2) + |words[|words| - 2]| < |JoinWords(words)|
    ensures JoinWords(words)[WordStart(words, |words| - 2) + |words[|words| - 2]|] == ' '
  {
    var head := JoinWords(words[..|words| - 1]);
    assert JoinWords(words) == head + " " + words[|words| - 1];
    WordStartNext(words, |words| - 2);
    assert WordStart(words, |words| - 1) == |head| + 1;
    Separator(head, words[|words| - 1]);
  }

  /** The separator sits right after the text before it. */
  lemma Separator(a: string, b: string)
    ensures |a| < |a + " " + b| && (a + " " + b)[|a|] == ' '
  {
  }

  /**
    The layout of `' '.join(words)`: every word appears, in order, at its
    start, and a single space follows every word but the last.
   */
  lemma JoinWordsLayout(words: seq<string>)
    ensures forall k :: 0 <= k < |words| ==>
      && WordStart(words, k) + |words[k]| <= |JoinWords(words)|
      && JoinWords(words)[WordStart(words, k)..WordStart(words, k) + |words[k]|] == words[k]
    ensures forall k :: 0 <= k < |words| - 1 ==>
      && WordStart(words, k) + |words[k]| < |JoinWords(words)|
      && JoinWords(words)[WordStart(words, k) + |words[k]|] == ' '
  {
    forall k | 0 <= k < |words| {
      JoinWordsPlace(words, k);
    }
    forall k | 0 <= k < |words| - 1 {
      JoinWordsSpace(words, k);
    }
  }

  /** String concatenation is associative. */
  lemma AppendAssoc(a: string, b: string, c: string)
    ensures (a + b) + c == a + (b + c)
  {
  }

  /** The concatenation of a sequence of strings, as repeated `+=` builds it. */
  function Concat(parts: seq<string>): string
  {
    if parts == [] then "" else parts[0] + Concat(parts[1..])
  }

  /** A single part concatenates to itself. */
  lemma ConcatOne(s: string)
    ensures Concat([s]) == s
  {
    assert [s][1..] == [];
    assert s + "" == s;
  }

  /** Appending a part to the buffer appends it to the concatenation. */
  lemma {:induction false} ConcatSnoc(parts: seq<string>, s: string)
    ensures Concat(parts + [s]) == Concat(parts) + s
  {
    if parts != [] {
      assert (parts + [s])[1..] == parts[1..] + [s];
      ConcatSnoc(parts[1..], s);
    }
  }
}
