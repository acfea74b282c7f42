/** The string services of the runtime that the line model relies on:
    `char.IsWhiteSpace`, `string.Trim()`, `Regex.Replace(s, @"\s+", "")`
    and `string.GetHashCode()`. */
module Text {

  /** The characters that `char.IsWhiteSpace` accepts: the control
      characters U+0009 to U+000D, U+0085, and the Unicode separator
      categories Zs, Zl and Zp. The regular expression class `\s` matches
      the same set, so one predicate serves both `Trim` and `\s+`. */
  predicate IsWhiteSpace(c: char): (r: bool)
    ensures c as int < 0x80 ==> (r <==> c as int in {0x09, 0x0A, 0x0B, 0x0C, 0x0D, 0x20})
  {
    var n := c as int;
    (0x09 <= n <= 0x0D) || n == 0x20 || n == 0x85 || n == 0xA0 || n == 0x1680
    || (0x2000 <= n <= 0x200A) || n == 0x2028 || n == 0x2029 || n == 0x202F
    || n == 0x205F || n == 0x3000
  }

  predicate AllWhiteSpace(s: string) {
    forall i :: 0 <= i < |s| ==> IsWhiteSpace(s[i])
  }

  predicate NoWhiteSpace(s: string) {
    forall i :: 0 <= i < |s| ==> !IsWhiteSpace(s[i])
  }

  /** Length of the longest all-white-space prefix of `s`. */
  function LeadingWhiteSpace(s: string): (n: nat)
    ensures n <= |s|
  {
    if |s| > 0 && IsWhiteSpace(s[0]) then 1 + LeadingWhiteSpace(s[1..]) else 0
  }

  /** The counted prefix is white space and the next character is not. */
  lemma {:induction false} LeadingWhiteSpaceMaximal(s: string)
    ensures var n := LeadingWhiteSpace(s);
      AllWhiteSpace(s[..n]) && (n < |s| ==> !IsWhiteSpace(s[n]))
  {
    if |s| > 0 && IsWhiteSpace(s[0]) {
      var m := LeadingWhiteSpace(s[1..]);
      LeadingWhiteSpaceMaximal(s[1..]);
      assert s[..m + 1] == [s[0]] + s[1..][..m];
    }
  }

  /** Length of the longest all-white-space suffix of `s`. */
  function TrailingWhiteSpace(s: string): (n: nat)
    ensures n <= |s|
  {
    if |s| > 0 && IsWhiteSpace(s[|s| - 1]) then 1 + TrailingWhiteSpace(s[..|s| - 1]) else 0
  }

  /** The counted suffix is white space and the character before it is
      not. */
  lemma {:induction false} TrailingWhiteSpaceMaximal(s: string)
    ensures var n := TrailingWhiteSpace(s);
      AllWhiteSpace(s[|s| - n..]) && (n < |s| ==> !IsWhiteSpace(s[|s| - n - 1]))
  {
    if |s| > 0 && IsWhiteSpace(s[|s| - 1]) {
      var t := s[..|s| - 1];
      var m := TrailingWhiteSpace(t);
      TrailingWhiteSpaceMaximal(t);
      var w := s[|s| - (m + 1)..];
      assert w == t[|t| - m..] + [s[|s| - 1]];
      assert forall i :: 0 <= i < |w| ==> IsWhiteSpace(w[i]) by {
        forall i | 0 <= i < |w| ensures IsWhiteSpace(w[i]) {
          if i < m {
            assert w[i] == t[|t| - m..][i];
          }
        }
      }
      if m + 1 < |s| {
        assert s[|s| - (m + 1) - 1] == t[|t| - m - 1];
      }
    }
  }

  /** `string.Trim()`: white space removed at both ends. When the text
      is all white space the two runs overlap and nothing is left. */
  function Trim(s: string): (r: string)
    ensures |r| <= |s|
  {
    var a := LeadingWhiteSpace(s);
    var e := |s| - TrailingWhiteSpace(s);
    if e <= a then [] else s[a..e]
  }

  /** When the leading and the trailing white-space runs meet, they both
      cover all of `s`. */
  lemma WhiteSpaceRunsMeet(s: string)
    requires |s| - TrailingWhiteSpace(s) <= LeadingWhiteSpace(s)
    ensures LeadingWhiteSpace(s) == |s|
  {
    var e := |s| - TrailingWhiteSpace(s);
    LeadingWhiteSpaceMaximal(s);
    TrailingWhiteSpaceMaximal(s);
    assert forall i :: e <= i < |s| ==> IsWhiteSpace(s[i]) by {
      forall i | e <= i < |s| ensures IsWhiteSpace(s[i]) {
        assert s[i] == s[e..][i - e];
      }
    }
  }

  /** Trim keeps one contiguous piece of `s` and drops only white space
      around it. */
  lemma TrimIsInfix(s: string)
    ensures var a := LeadingWhiteSpace(s); var r := Trim(s);
      a + |r| <= |s| && r == s[a..a + |r|]
      && AllWhiteSpace(s[..a]) && AllWhiteSpace(s[a + |r|..])
  {
    var a := LeadingWhiteSpace(s);
    var e := |s| - TrailingWhiteSpace(s);
    var r := Trim(s);
    LeadingWhiteSpaceMaximal(s);
    if e <= a {
      WhiteSpaceRunsMeet(s);
      assert r == [] && s[a..] == [];
    } else {
      TrailingWhiteSpaceMaximal(s);
      assert r == s[a..e] && a + |r| == e;
    }
  }

  /** The trimmed text neither begins nor ends with white space. */
  lemma TrimHasNoEdgeWhiteSpace(s: string)
    ensures var r := Trim(s);
      r == [] || (!IsWhiteSpace(r[0]) && !IsWhiteSpace(r[|r| - 1]))
  {
    LeadingWhiteSpaceMaximal(s);
    TrailingWhiteSpaceMaximal(s);
  }

  /** Trimming twice is trimming once. */
  lemma TrimIdempotent(s: string)
    ensures Trim(Trim(s)) == Trim(s)
  {
    var r := Trim(s);
    TrimHasNoEdgeWhiteSpace(s);
    assert LeadingWhiteSpace(r) == 0;
    assert TrailingWhiteSpace(r) == 0;
  }

  /** `Regex.Replace(s, @"\s+", "")`: every white-space character removed,
      the others kept in order. */
  function StripWhiteSpace(s: string): (r: string)
    ensures |r| <= |s|
    ensures NoWhiteSpace(r)
  {
    if s == [] then []
    else (if IsWhiteSpace(s[0]) then [] else [s[0]]) + StripWhiteSpace(s[1..])
  }

  lemma {:induction false} StripConcat(a: string, b: string)
    ensures StripWhiteSpace(a + b) == StripWhiteSpace(a) + StripWhiteSpace(b)
  {
    if a != [] {
      assert (a + b)[1..] == a[1..] + b;
      StripConcat(a[1..], b);
    } else {
      assert a + b == b;
    }
  }

  lemma {:induction false} StripAllWhiteSpace(w: string)
    requires AllWhiteSpace(w)
    ensures StripWhiteSpace(w) == []
  {
    if w != [] {
      StripAllWhiteSpace(w[1..]);
    }
  }

  lemma {:induction false} StripNoWhiteSpace(s: string)
    requires NoWhiteSpace(s)
    ensures StripWhiteSpace(s) == s
  {
    if s != [] {
      StripNoWhiteSpace(s[1..]);
    }
  }

  /** Removing all white space is idempotent. */
  lemma StripIdempotent(s: string)
    ensures StripWhiteSpace(StripWhiteSpace(s)) == StripWhiteSpace(s)
  {
    StripNoWhiteSpace(StripWhiteSpace(s));
  }

  /** A run of white space anywhere in a text, of any length, makes no
      difference once all white space is removed. */
  lemma StripIgnoresWhiteSpaceRun(p: string, w: string, q: string)
    requires AllWhiteSpace(w)
    ensures StripWhiteSpace(p + w + q) == StripWhiteSpace(p + q)
  {
    StripConcat(p + w, q);
    StripConcat(p, w);
    StripConcat(p, q);
    StripAllWhiteSpace(w);
  }

  /** Trimming first does not change the white-space-free text. */
  lemma StripOfTrim(s: string)
    ensures StripWhiteSpace(Trim(s)) == StripWhiteSpace(s)
  {
    TrimIsInfix(s);
    var a := LeadingWhiteSpace(s);
    var r := Trim(s);
    assert s == s[..a] + r + s[a + |r|..];
    StripConcat(s[..a] + r, s[a + |r|..]);
    StripConcat(s[..a], r);
    StripAllWhiteSpace(s[..a]);
    StripAllWhiteSpace(s[a + |r|..]);
  }

  const HashRange := 0x1_0000_0000

  function HashBits(s: string): (h: nat)
    ensures h < HashRange
  {
    if s == [] then 0
    else (HashBits(s[..|s| - 1]) * 31 + s[|s| - 1] as int) % HashRange
  }

  /** A stand-in for `string.GetHashCode()`: a deterministic 32-bit
      signed value. The model relies on nothing but determinism. */
  function Hash(s: string): (h: int)
    ensures -0x8000_0000 <= h < 0x8000_0000
  {
    var b := HashBits(s);
    if b < 0x8000_0000 then b else b - HashRange
  }
}
