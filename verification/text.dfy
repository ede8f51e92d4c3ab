/** Lexicographic comparison of text, and decimal digits read as numbers. */
module Text {

  /** -1, 0 or 1, as the source's three-way comparison of strings by code unit. */
  function CompareText(a: string, b: string): int {
    if a == [] then (if b == [] then 0 else -1)
    else if b == [] then 1
    else if a[0] < b[0] then -1
    else if a[0] > b[0] then 1
    else CompareText(a[1..], b[1..])
  }

  lemma {:induction false} CompareTextAntisymmetric(a: string, b: string)
    ensures CompareText(a, b) == -CompareText(b, a)
    ensures CompareText(a, b) == 0 <==> a == b
  {
    if a != [] && b != [] {
      CompareTextAntisymmetric(a[1..], b[1..]);
      assert a == [a[0]] + a[1..] && b == [b[0]] + b[1..];
    }
  }

  lemma {:induction false} CompareTextTransitive(a: string, b: string, c: string)
    requires CompareText(a, b) <= 0 && CompareText(b, c) <= 0
    ensures CompareText(a, c) <= 0
    ensures CompareText(a, b) < 0 || CompareText(b, c) < 0 ==> CompareText(a, c) < 0
  {
    if a != [] && b != [] && c != [] {
      if a[0] == b[0] == c[0] {
        CompareTextTransitive(a[1..], b[1..], c[1..]);
      }
    }
  }

  /** Two texts part at `n`: they agree before it, and the first ends there or has the smaller character. */
  ghost predicate PartsAt(a: string, b: string, n: nat) {
    && n <= |a| && n < |b| && a[..n] == b[..n]
    && (n < |a| ==> a[n] < b[n])
  }

  /** A text comes before another exactly when they part somewhere: dictionary order, character by character. */
  lemma {:induction false} CompareTextIsDictionaryOrder(a: string, b: string)
    ensures CompareText(a, b) < 0 <==> exists n: nat :: PartsAt(a, b, n)
  {
    if a == [] || b == [] || a[0] != b[0] {
      if CompareText(a, b) < 0 {
        assert PartsAt(a, b, 0);
      }
      forall n: nat | PartsAt(a, b, n) ensures CompareText(a, b) < 0 {
        assert n > 0 ==> a[..n][0] == b[..n][0];
      }
    } else {
      CompareTextIsDictionaryOrder(a[1..], b[1..]);
      if CompareText(a, b) < 0 {
        var n: nat :| PartsAt(a[1..], b[1..], n);
        assert a[..n + 1] == [a[0]] + a[1..][..n] && b[..n + 1] == [b[0]] + b[1..][..n];
        assert PartsAt(a, b, n + 1);
      }
      forall n: nat | PartsAt(a, b, n) ensures CompareText(a, b) < 0 {
        assert n > 0;
        assert a[1..][..n - 1] == a[..n][1..] && b[1..][..n - 1] == b[..n][1..];
        assert PartsAt(a[1..], b[1..], n - 1);
      }
    }
  }

  lemma {:induction false} CompareTextConcat(a: string, b: string, c: string, d: string)
    requires |a| == |b|
    ensures CompareText(a + c, b + d) == if a == b then CompareText(c, d) else CompareText(a, b)
  {
    if a == [] {
      assert a + c == c && b + d == d;
    } else {
      assert (a + c)[1..] == a[1..] + c && (b + d)[1..] == b[1..] + d;
      assert a == [a[0]] + a[1..] && b == [b[0]] + b[1..];
      CompareTextConcat(a[1..], b[1..], c, d);
    }
  }

  /** The white space and line terminators that trimming removes. */
  predicate IsSpace(c: char) {
    || c == ' ' || '\t' <= c <= '\r' || c == '\U{00A0}' || c == '\U{FEFF}'
    || c == '\U{1680}' || '\U{2000}' <= c <= '\U{200A}' || c == '\U{2028}' || c == '\U{2029}'
    || c == '\U{202F}' || c == '\U{205F}' || c == '\U{3000}'
  }

  function TrimStart(s: string): string {
    if s != "" && IsSpace(s[0]) then TrimStart(s[1..]) else s
  }

  function TrimEnd(s: string): string {
    if s != "" && IsSpace(s[|s| - 1]) then TrimEnd(s[..|s| - 1]) else s
  }

  function Trim(s: string): string {
    TrimEnd(TrimStart(s))
  }

  lemma {:induction false} TrimStartEndsAtText(s: string)
    ensures |TrimStart(s)| <= |s| && TrimStart(s) == s[|s| - |TrimStart(s)|..]
    ensures forall i :: 0 <= i < |s| - |TrimStart(s)| ==> IsSpace(s[i])
    ensures TrimStart(s) != "" ==> !IsSpace(TrimStart(s)[0])
  {
    if s != "" && IsSpace(s[0]) {
      TrimStartEndsAtText(s[1..]);
      forall i | 0 <= i < |s| - |TrimStart(s)| ensures IsSpace(s[i]) {
        if i > 0 {
          assert s[i] == s[1..][i - 1];
        }
      }
    }
  }

  lemma {:induction false} TrimEndKeepsText(s: string)
    requires s != "" && !IsSpace(s[0])
    ensures TrimEnd(s) != ""
  {
    if IsSpace(s[|s| - 1]) {
      TrimEndKeepsText(s[..|s| - 1]);
    }
  }

  /** Trimming leaves nothing of a text exactly when every character is one of the 25 that JavaScript calls white space. */
  lemma TrimLeavesNothingExactly(s: string)
    ensures Trim(s) == "" <==>
            forall i :: 0 <= i < |s| ==>
              var code := s[i] as int;
              || 9 <= code <= 13 || code == 32 || code == 160 || code == 5760 || 8192 <= code <= 8202
              || code in [8232, 8233, 8239, 8287, 12288, 65279]
  {
    TrimStartEndsAtText(s);
    if TrimStart(s) != "" {
      TrimEndKeepsText(TrimStart(s));
      assert TrimStart(s)[0] == s[|s| - |TrimStart(s)|];
    }
  }

  predicate IsDigits(s: string) {
    forall i :: 0 <= i < |s| ==> '0' <= s[i] <= '9'
  }

  function DigitOf(c: char): nat
    requires '0' <= c <= '9'
  {
    c as int - '0' as int
  }

  /** The number a string of decimal digits denotes; zero for the empty string. */
  function DigitsValue(s: string): nat
    requires IsDigits(s)
  {
    if s == [] then 0 else 10 * DigitsValue(s[..|s| - 1]) + DigitOf(s[|s| - 1])
  }

  /** Among digit strings of one length, text order is numeric order. */
  lemma {:induction false} DigitsOrder(a: string, b: string)
    requires IsDigits(a) && IsDigits(b) && |a| == |b|
    ensures CompareText(a, b) < 0 <==> DigitsValue(a) < DigitsValue(b)
    ensures CompareText(a, b) == 0 <==> DigitsValue(a) == DigitsValue(b)
  {
    if a != [] {
      var n := |a| - 1;
      assert a == a[..n] + [a[n]] && b == b[..n] + [b[n]];
      DigitsOrder(a[..n], b[..n]);
      CompareTextConcat(a[..n], b[..n], [a[n]], [b[n]]);
      CompareTextAntisymmetric(a[..n], b[..n]);
      assert CompareText([a[n]], [b[n]]) == if a[n] < b[n] then -1 else if a[n] > b[n] then 1 else 0;
    }
  }
}
