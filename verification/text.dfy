/** The JavaScript string operations the client relies on: number-to-decimal
    conversion (template literals), `trim`, `toLowerCase`, `includes` and
    `repeat`, over strings as sequences of Unicode scalar values. */
module Text {
  import opened Common

  predicate IsDigit(c: char) { '0' <= c <= '9' }

  /** The numeric value of a string of decimal digits. */
  function DigitsValue(s: string): nat
    requires forall i :: 0 <= i < |s| ==> IsDigit(s[i])
  {
    if s == [] then 0
    else
      assert IsDigit(s[|s| - 1]);
      DigitsValue(s[..|s| - 1]) * 10 + (s[|s| - 1] as int - '0' as int)
  }

  /** `${n}` for a non-negative integer: its shortest decimal representation. */
  function NatToString(n: nat): (s: string)
    ensures |s| >= 1
    ensures forall i :: 0 <= i < |s| ==> IsDigit(s[i])
    ensures s[0] == '0' ==> s == "0"
    ensures DigitsValue(s) == n
    decreases n
  {
    var last := ['0' + ((n % 10) as char)];
    if n < 10 then last
    else
      var prefix := NatToString(n / 10);
      assert (prefix + last)[..|prefix|] == prefix;
      prefix + last
  }

  /** The characters `String.prototype.trim` strips: ECMAScript's WhiteSpace
      (tab, vertical tab, form feed, space, no-break space, byte order mark and
      every space separator) and LineTerminator (line feed, carriage return,
      line separator, paragraph separator). */
  predicate IsWhite(c: char)
  {
    || c == '\t' || c == '\n' || c == '\U{000B}' || c == '\U{000C}' || c == '\r' || c == ' '
    || c == '\U{00A0}' || c == '\U{1680}' || ('\U{2000}' <= c <= '\U{200A}')
    || c == '\U{2028}' || c == '\U{2029}' || c == '\U{202F}' || c == '\U{205F}'
    || c == '\U{3000}' || c == '\U{FEFF}'
  }

  predicate IsBlank(s: string)
  {
    forall i :: 0 <= i < |s| ==> IsWhite(s[i])
  }

  /** How many white characters `s` has from index `start` on, before its
      first non-white character. */
  function WhiteFrom(s: string, start: nat): (n: nat)
    requires start <= |s|
    ensures start + n <= |s|
    ensures forall i :: start <= i < start + n ==> IsWhite(s[i])
    ensures start + n == |s| || !IsWhite(s[start + n])
    decreases |s| - start
  {
    if start < |s| && IsWhite(s[start]) then WhiteFrom(s, start + 1) + 1 else 0
  }

  /** How many white characters `s` has just before index `end`. */
  function WhiteBefore(s: string, end: nat): (n: nat)
    requires end <= |s|
    ensures n <= end
    ensures forall i :: end - n <= i < end ==> IsWhite(s[i])
    ensures n == end || !IsWhite(s[end - n - 1])
  {
    if end > 0 && IsWhite(s[end - 1]) then WhiteBefore(s, end - 1) + 1 else 0
  }

  /** How many white characters `s` starts with. */
  function LeadingWhite(s: string): (n: nat)
    ensures n <= |s| && IsBlank(s[..n]) && (n == |s| || !IsWhite(s[n]))
  {
    WhiteFrom(s, 0)
  }

  /** How many white characters `s` ends with. */
  function TrailingWhite(s: string): (n: nat)
    ensures n <= |s| && IsBlank(s[|s| - n..]) && (n == |s| || !IsWhite(s[|s| - n - 1]))
  {
    WhiteBefore(s, |s|)
  }

  /** `s` without its leading white space. */
  function TrimStart(s: string): (r: string)
    ensures |r| <= |s| && r == s[|s| - |r|..]
    ensures r == [] || !IsWhite(r[0])
    ensures IsBlank(s[..|s| - |r|])
  {
    s[LeadingWhite(s)..]
  }

  /** `s` without its trailing white space. */
  function TrimEnd(s: string): (r: string)
    ensures |r| <= |s| && r == s[..|r|]
    ensures r == [] || !IsWhite(r[|r| - 1])
    ensures IsBlank(s[|r|..])
  {
    s[..|s| - TrailingWhite(s)]
  }

  /** `s.trim()`. */
  function Trim(s: string): (r: string)
    ensures |r| <= |s|
    ensures r == [] || (!IsWhite(r[0]) && !IsWhite(r[|r| - 1]))
  {
    TrimEnd(TrimStart(s))
  }

  /** `s.trim()` is the empty string (falsy) exactly when `s` is blank. */
  lemma {:induction false} TrimEmptyIffBlank(s: string)
    ensures Trim(s) == [] <==> IsBlank(s)
  {
    var t := TrimStart(s);
    if Trim(s) == [] {
      assert t == [];
    }
    if IsBlank(s) {
      assert t == [];
    }
  }

  /** `s.trim()` drops white space only at the ends: what remains is the
      slice of `s` that begins right after its leading white space. */
  lemma {:induction false} TrimIsInnerSlice(s: string)
    ensures var a := |s| - |TrimStart(s)|;
            a + |Trim(s)| <= |s| && Trim(s) == s[a..a + |Trim(s)|]
  {
    PrefixOfSuffix(s, TrimStart(s), Trim(s));
  }

  /** A prefix of a suffix of `s` is a slice of `s`. */
  lemma PrefixOfSuffix(s: string, t: string, r: string)
    requires |t| <= |s| && t == s[|s| - |t|..]
    requires |r| <= |t| && r == t[..|r|]
    ensures var a := |s| - |t|; a + |r| <= |s| && r == s[a..a + |r|]
  {
    assert s[|s| - |t|..][..|r|] == s[|s| - |t|..|s| - |t| + |r|];
  }

  /** The lower-case form of one character under `toLowerCase`: ASCII and
      Latin-1 capitals map to their small letters, U+0130 (capital I with dot)
      to `i` followed by U+0307 (combining dot), U+212A (Kelvin sign) to `k`;
      every other character is kept. */
  function LowerChar(c: char): (r: string)
    ensures 1 <= |r| <= 2
    ensures forall i :: 0 <= i < |r| ==> !('A' <= r[i] <= 'Z')
    ensures 'A' <= c <= 'Z' ==> r == [(c as int + 32) as char]
    ensures c < '\U{0080}' && !('A' <= c <= 'Z') ==> r == [c]
  {
    if 'A' <= c <= 'Z' then [(c as int + 32) as char]
    else if ('\U{00C0}' <= c <= '\U{00DE}') && c != '\U{00D7}' then [(c as int + 32) as char]
    else if c == '\U{0130}' then "i\U{0307}"
    else if c == '\U{212A}' then "k"
    else [c]
  }

  /** Every character of `s` is ASCII. */
  predicate IsAscii(s: string)
  {
    forall i :: 0 <= i < |s| ==> s[i] < '\U{0080}'
  }

  /** `s.toLowerCase()`: on ASCII text, character by character. */
  function ToLower(s: string): (r: string)
    ensures |s| <= |r| <= 2 * |s|
    ensures forall i :: 0 <= i < |r| ==> !('A' <= r[i] <= 'Z')
    ensures IsAscii(s) ==> |r| == |s| && forall i :: 0 <= i < |s| ==> [r[i]] == LowerChar(s[i])
  {
    if s == [] then []
    else
      var rest := ToLower(s[1..]);
      assert IsAscii(s) ==> IsAscii(s[1..]) && |LowerChar(s[0])| == 1;
      LowerChar(s[0]) + rest
  }

  lemma {:induction false} ToLowerConcat(a: string, b: string)
    ensures ToLower(a + b) == ToLower(a) + ToLower(b)
    decreases |a|
  {
    if a == [] {
      assert a + b == b;
    } else {
      assert (a + b)[0] == a[0];
      assert (a + b)[1..] == a[1..] + b;
      ToLowerConcat(a[1..], b);
    }
  }

  /** A lower-cased character is already lower case. */
  lemma LowerCharStable(c: char)
    ensures ToLower(LowerChar(c)) == LowerChar(c)
  {
    var l := LowerChar(c);
    if |l| == 1 {
      assert ToLower(l) == LowerChar(l[0]) + ToLower([]);
    } else {
      assert l == "i\U{0307}";
      assert ToLower(l) == LowerChar(l[0]) + ToLower(l[1..]);
      assert ToLower(l[1..]) == LowerChar(l[1]) + ToLower([]);
    }
  }

  /** Lowering twice is lowering once. */
  lemma {:induction false} ToLowerIdempotent(s: string)
    ensures ToLower(ToLower(s)) == ToLower(s)
    decreases |s|
  {
    if s != [] {
      ToLowerConcat(LowerChar(s[0]), ToLower(s[1..]));
      LowerCharStable(s[0]);
      ToLowerIdempotent(s[1..]);
    }
  }

  /** `s.includes(w)`. */
  predicate Includes(s: string, w: string)
    decreases |s|
  {
    (|w| <= |s| && s[..|w|] == w) || (s != [] && Includes(s[1..], w))
  }

  /** `w` occurs in `s` starting at position `i`. */
  predicate OccursAt(s: string, w: string, i: int)
  {
    0 <= i <= |s| - |w| && s[i..i + |w|] == w
  }

  /** `s.includes(w)` holds exactly when `w` occurs at some position of `s`. */
  lemma {:induction false} IncludesIff(s: string, w: string)
    ensures Includes(s, w) <==> exists i :: OccursAt(s, w, i)
    decreases |s|
  {
    if s != [] {
      IncludesIff(s[1..], w);
      if exists i :: OccursAt(s, w, i) {
        var i :| OccursAt(s, w, i);
        if i > 0 {
          assert OccursAt(s[1..], w, i - 1);
        }
      }
      if Includes(s[1..], w) {
        var j :| OccursAt(s[1..], w, j);
        assert OccursAt(s, w, j + 1);
      }
      if |w| <= |s| && s[..|w|] == w {
        assert OccursAt(s, w, 0);
      }
    } else {
      if exists i :: OccursAt(s, w, i) {
        var i :| OccursAt(s, w, i);
        assert s[..|w|] == w;
      }
      if Includes(s, w) {
        assert OccursAt(s, w, 0);
      }
    }
  }

  /** `c.repeat(n)` for a one-character `c`; a negative count throws a
      RangeError. */
  function Repeat(c: char, n: int): (r: Option<string>)
    ensures r.Some? <==> n >= 0
    ensures r.Some? ==> |r.value| == n && forall i :: 0 <= i < n ==> r.value[i] == c
  {
    if n < 0 then None else Some(seq(n, _ => c))
  }
}
