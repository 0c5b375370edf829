/**
  * The JavaScript string primitives the core relies on, over `seq<char>`:
  * `trim`, ASCII `toLowerCase`, `split` on one or more separator characters,
  * `join`, `includes`, `startsWith`, `padStart`, `slice`, lexicographic `<`,
  * and decimal digit strings.
  */
module Strings {

  /** White space and line terminators, as `String.prototype.trim` and the regular-expression class `\s` see them. */
  predicate IsSpace(c: char) {
    c == ' ' || c == '\t' || c == '\n' || c == '\r' || c == '\U{B}' || c == '\U{C}'
    || c == '\U{A0}' || c == '\U{1680}' || ('\U{2000}' <= c <= '\U{200A}')
    || c == '\U{2028}' || c == '\U{2029}' || c == '\U{202F}' || c == '\U{205F}'
    || c == '\U{3000}' || c == '\U{FEFF}'
  }

  /** `s.trimStart()`: drops the leading white space and nothing else. */
  function TrimStart(s: string): (r: string)
    ensures |r| <= |s| && r == s[|s| - |r|..]
    ensures forall i :: 0 <= i < |s| - |r| ==> IsSpace(s[i])
    ensures r == [] || !IsSpace(r[0])
  {
    if |s| > 0 && IsSpace(s[0]) then TrimStart(s[1..]) else s
  }

  /** `s.trimEnd()`: drops the trailing white space and nothing else. */
  function TrimEnd(s: string): (r: string)
    ensures |r| <= |s| && r == s[..|r|]
    ensures forall i :: |r| <= i < |s| ==> IsSpace(s[i])
    ensures r == [] || !IsSpace(r[|r| - 1])
  {
    if |s| > 0 && IsSpace(s[|s| - 1]) then TrimEnd(s[..|s| - 1]) else s
  }

  /** `s.trim()`. */
  function Trim(s: string): (r: string)
    ensures r == [] || (!IsSpace(r[0]) && !IsSpace(r[|r| - 1]))
  {
    TrimEnd(TrimStart(s))
  }

  /** A string that neither starts nor ends with white space is its own trim. */
  lemma TrimUnchanged(s: string)
    requires s == [] || (!IsSpace(s[0]) && !IsSpace(s[|s| - 1]))
    ensures Trim(s) == s
  {
  }

  /** Trimming twice is trimming once. */
  lemma TrimIdempotent(s: string)
    ensures Trim(Trim(s)) == Trim(s)
  {
    TrimUnchanged(Trim(s));
  }

  /** ASCII `toLowerCase` of one character. */
  function LowerChar(c: char): char {
    if 'A' <= c <= 'Z' then (c as int - 'A' as int + 'a' as int) as char else c
  }

  /** `s.toLowerCase()` on the ASCII letters. */
  function Lower(s: string): (r: string)
    ensures |r| == |s|
    ensures forall i :: 0 <= i < |s| ==> r[i] == LowerChar(s[i])
  {
    if s == [] then [] else [LowerChar(s[0])] + Lower(s[1..])
  }

  lemma LowerIdempotent(s: string)
    ensures Lower(Lower(s)) == Lower(s)
  {
  }

  /** Lower-casing distributes over concatenation and slicing. */
  lemma LowerConcat(a: string, b: string)
    ensures Lower(a + b) == Lower(a) + Lower(b)
  {
  }

  lemma LowerPrefix(s: string, n: nat)
    requires n <= |s|
    ensures Lower(s[..n]) == Lower(s)[..n]
  {
  }

  /** Trimming and lower-casing commute: no ASCII letter is white space. */
  lemma {:induction false} TrimLowerCommute(s: string)
    ensures Trim(Lower(s)) == Lower(Trim(s))
  {
    TrimStartLower(s);
    TrimEndLower(TrimStart(s));
  }

  lemma {:induction false} TrimStartLower(s: string)
    ensures TrimStart(Lower(s)) == Lower(TrimStart(s))
  {
    if |s| > 0 {
      LowerTail(s);
      SpaceLower(s[0]);
      if IsSpace(s[0]) {
        TrimStartLower(s[1..]);
      }
    }
  }

  lemma {:induction false} TrimEndLower(s: string)
    ensures TrimEnd(Lower(s)) == Lower(TrimEnd(s))
  {
    if |s| > 0 {
      var t, n := Lower(s), |s| - 1;
      LowerPrefix(s, n);
      SpaceLower(s[n]);
      if IsSpace(s[n]) {
        TrimEndLower(s[..n]);
      } else {
        assert !IsSpace(t[n]);
      }
    }
  }

  /** The lower-cased string begins with the lower-cased first character and goes on with the rest lower-cased. */
  lemma LowerTail(s: string)
    requires |s| > 0
    ensures Lower(s)[0] == LowerChar(s[0]) && Lower(s)[1..] == Lower(s[1..])
  {
  }

  /** Lower-casing neither makes nor unmakes white space. */
  lemma SpaceLower(c: char)
    ensures IsSpace(LowerChar(c)) == IsSpace(c)
  {
    if 'A' <= c <= 'Z' {
      assert 'a' <= LowerChar(c) <= 'z';
    }
  }

  /** No character of `s` is one of `seps`. */
  predicate NoneIn(s: string, seps: set<char>) {
    forall i :: 0 <= i < |s| ==> s[i] !in seps
  }

  /**
    * `s.split(sep)` where a separator is any one character of `seps`
    * (`split(",")`, `split("/")`, `split(/[-/]/)`): the pieces between
    * separators, in order, always at least one.
    */
  function Split(s: string, seps: set<char>): (parts: seq<string>)
    ensures |parts| >= 1
    ensures forall i :: 0 <= i < |parts| ==> NoneIn(parts[i], seps)
  {
    if s == [] then [""]
    else
      var rest := Split(s[1..], seps);
      if s[0] in seps then [""] + rest else [[s[0]] + rest[0]] + rest[1..]
  }

  /** `parts.join(sep)`. */
  function Join(parts: seq<string>, sep: string): (r: string)
  {
    if parts == [] then ""
    else if |parts| == 1 then parts[0]
    else parts[0] + sep + Join(parts[1..], sep)
  }

  /** A string without separators is one piece. */
  lemma {:induction false} SplitNone(a: string, seps: set<char>)
    requires NoneIn(a, seps)
    ensures Split(a, seps) == [a]
  {
    if a != [] {
      SplitNone(a[1..], seps);
      assert a == [a[0]] + a[1..];
    }
  }

  /** The piece before the first separator, then the split of the rest. */
  lemma {:induction false} SplitAt(a: string, c: char, b: string, seps: set<char>)
    requires NoneIn(a, seps) && c in seps
    ensures Split(a + [c] + b, seps) == [a] + Split(b, seps)
  {
    if a == [] {
      assert (a + [c] + b)[1..] == b;
    } else {
      assert (a + [c] + b)[1..] == a[1..] + [c] + b;
      SplitAt(a[1..], c, b, seps);
      assert a == [a[0]] + a[1..];
    }
  }

  /** Joining the pieces of a split with the one separator character gives back the string. */
  lemma {:induction false} SplitJoin(s: string, c: char)
    ensures Join(Split(s, {c}), [c]) == s
  {
    if s != [] {
      SplitJoin(s[1..], c);
      var rest := Split(s[1..], {c});
      assert s == [s[0]] + s[1..];
      if s[0] == c {
        JoinCons("", rest, [c]);
      } else if |rest| == 1 {
        assert Split(s, {c}) == [[s[0]] + rest[0]];
      } else {
        JoinCons([s[0]] + rest[0], rest[1..], [c]);
        JoinCons(rest[0], rest[1..], [c]);
        assert [rest[0]] + rest[1..] == rest;
      }
    }
  }

  /** Joining a list with one more piece in front. */
  lemma JoinCons(p: string, rest: seq<string>, sep: string)
    requires rest != []
    ensures Join([p] + rest, sep) == p + sep + Join(rest, sep)
  {
    assert ([p] + rest)[0] == p && ([p] + rest)[1..] == rest;
  }


  /** Splitting a join of separator-free pieces gives back the pieces. */
  lemma {:induction false} JoinSplit(parts: seq<string>, c: char)
    requires |parts| >= 1
    requires forall i :: 0 <= i < |parts| ==> NoneIn(parts[i], {c})
    ensures Split(Join(parts, [c]), {c}) == parts
  {
    if |parts| == 1 {
      SplitNone(parts[0], {c});
    } else {
      JoinSplit(parts[1..], c);
      SplitAt(parts[0], c, Join(parts[1..], [c]), {c});
    }
  }

  /** Neither piece has a character of `seps`, so neither does their concatenation. */
  lemma NoneInConcat(a: string, b: string, seps: set<char>)
    requires NoneIn(a, seps) && NoneIn(b, seps)
    ensures NoneIn(a + b, seps)
  {
    forall i | 0 <= i < |a + b| ensures (a + b)[i] !in seps {
      if i >= |a| {
        assert (a + b)[i] == b[i - |a|];
      }
    }
  }

  /** A join of pieces and a separator free of `seps` is free of `seps`. */
  lemma {:induction false} JoinNoneIn(parts: seq<string>, sep: string, seps: set<char>)
    requires forall i :: 0 <= i < |parts| ==> NoneIn(parts[i], seps)
    requires NoneIn(sep, seps)
    ensures NoneIn(Join(parts, sep), seps)
  {
    if |parts| > 1 {
      JoinNoneIn(parts[1..], sep, seps);
      NoneInConcat(parts[0], sep, seps);
      NoneInConcat(parts[0] + sep, Join(parts[1..], sep), seps);
    }
  }

  /** A join starts with its first piece. */
  lemma JoinHead(parts: seq<string>, sep: string)
    requires |parts| >= 1
    ensures |Join(parts, sep)| >= |parts[0]| && Join(parts, sep)[..|parts[0]|] == parts[0]
  {
    if |parts| > 1 {
      assert Join(parts, sep) == parts[0] + (sep + Join(parts[1..], sep));
    }
  }

  /** A string that starts with a non-space character is not blank. */
  lemma LeadingNonSpace(s: string)
    requires s != [] && !IsSpace(s[0])
    ensures Trim(s) != []
  {
    assert TrimStart(s) == s;
  }

  /** `s.replace(/[...]/g, "")`: every character of `cs` removed. */
  function RemoveChars(s: string, cs: set<char>): (r: string)
    ensures NoneIn(r, cs)
    ensures |r| <= |s|
  {
    if s == [] then []
    else
      var rest := RemoveChars(s[1..], cs);
      if s[0] in cs then rest
      else
        NoneInConcat([s[0]], rest, cs);
        [s[0]] + rest
  }

  /** Removal works piece by piece. */
  lemma {:induction false} RemoveConcat(a: string, b: string, cs: set<char>)
    ensures RemoveChars(a + b, cs) == RemoveChars(a, cs) + RemoveChars(b, cs)
  {
    if a != [] {
      assert (a + b)[0] == a[0] && (a + b)[1..] == a[1..] + b;
      RemoveConcat(a[1..], b, cs);
    } else {
      assert a + b == b;
    }
  }

  /** A string without the removed characters is left alone. */
  lemma {:induction false} RemoveNone(s: string, cs: set<char>)
    requires NoneIn(s, cs)
    ensures RemoveChars(s, cs) == s
  {
    if s != [] {
      RemoveNone(s[1..], cs);
      assert s == [s[0]] + s[1..];
    }
  }

  /** `s.startsWith(t)`. */
  predicate StartsWith(s: string, t: string) {
    |t| <= |s| && s[..|t|] == t
  }

  /** `s.includes(t)`. */
  predicate Contains(s: string, t: string)
  {
    StartsWith(s, t) || (|s| > 0 && Contains(s[1..], t))
  }

  /** `t` occurs in `s` starting at index `i`. */
  predicate OccursAt(s: string, t: string, i: int) {
    0 <= i <= |s| - |t| && s[i..i + |t|] == t
  }

  /** `includes` finds `t` exactly when `t` occurs at some index of `s`. */
  lemma {:induction false} ContainsAt(s: string, t: string)
    ensures Contains(s, t) <==> exists i :: OccursAt(s, t, i)
  {
    if StartsWith(s, t) {
      assert OccursAt(s, t, 0);
    } else if |s| > 0 {
      ContainsAt(s[1..], t);
      if exists i :: OccursAt(s, t, i) {
        var i :| OccursAt(s, t, i);
        assert i != 0;
        assert OccursAt(s[1..], t, i - 1);
      }
      if Contains(s[1..], t) {
        var i :| OccursAt(s[1..], t, i);
        assert OccursAt(s, t, i + 1);
      }
    }
  }

  /** A character of `s` is found in `s`. */
  lemma ContainsChar(s: string, i: int)
    requires 0 <= i < |s|
    ensures Contains(s, [s[i]])
  {
    ContainsAt(s, [s[i]]);
    assert OccursAt(s, [s[i]], i);
  }

  /** A character that does not occur in `s` is not found in it. */
  lemma NotContainsChar(s: string, c: char)
    requires NoneIn(s, {c})
    ensures !Contains(s, [c])
  {
    ContainsAt(s, [c]);
    forall i | 0 <= i < |s| ensures !OccursAt(s, [c], i) {
      assert s[i..i + 1] == [s[i]];
    }
  }

  /** A prefix of `s` is found in `s`. */
  lemma ContainsPrefix(s: string, n: nat)
    requires n <= |s|
    ensures Contains(s, s[..n])
  {
  }

  /** `s.padStart(n, c)`. */
  function PadStart(s: string, n: nat, c: char): (r: string)
    ensures |r| == if |s| >= n then |s| else n
    ensures r[|r| - |s|..] == s
    ensures forall i :: 0 <= i < |r| - |s| ==> r[i] == c
  {
    if |s| >= n then s else seq(n - |s|, _ => c) + s
  }

  /** `s.slice(0, n)` for `n >= 0`: the first `n` characters, or all of them. */
  function Take(s: string, n: nat): (r: string)
    ensures |r| == if |s| < n then |s| else n
    ensures StartsWith(s, r)
  {
    if |s| <= n then s else s[..n]
  }

  /** `s.slice(-n)`: the last `n` characters, or all of them. */
  function TakeLast(s: string, n: nat): (r: string)
    ensures |r| == if |s| < n then |s| else n
    ensures r == s[|s| - |r|..]
  {
    if |s| <= n then s else s[|s| - n..]
  }

  /** JavaScript's `a < b` on strings: lexicographic by character code. */
  predicate Less(a: string, b: string)
  {
    if a == [] then b != []
    else if b == [] then false
    else if a[0] != b[0] then a[0] < b[0]
    else Less(a[1..], b[1..])
  }

  /** Comparing two strings whose heads have equal length compares the heads first, then the tails. */
  lemma {:induction false} LessConcat(a1: string, a2: string, b1: string, b2: string)
    requires |a1| == |b1|
    ensures Less(a1 + a2, b1 + b2) <==> Less(a1, b1) || (a1 == b1 && Less(a2, b2))
  {
    if a1 != [] {
      assert (a1 + a2)[0] == a1[0] && (b1 + b2)[0] == b1[0];
      assert (a1 + a2)[1..] == a1[1..] + a2 && (b1 + b2)[1..] == b1[1..] + b2;
      LessConcat(a1[1..], a2, b1[1..], b2);
      if a1[0] == b1[0] {
        assert a1 == b1 <==> a1[1..] == b1[1..] by {
          assert a1 == [a1[0]] + a1[1..] && b1 == [b1[0]] + b1[1..];
        }
      }
    } else {
      assert a1 + a2 == a2 && b1 + b2 == b2;
    }
  }

  // ----- decimal digits -----

  predicate IsDigit(c: char) { '0' <= c <= '9' }

  predicate AllDigits(s: string) {
    forall i :: 0 <= i < |s| ==> IsDigit(s[i])
  }

  function DigitChar(d: nat): (c: char)
    requires d < 10
    ensures IsDigit(c)
  {
    ('0' as int + d) as char
  }

  function DigitValue(c: char): (d: nat)
    requires IsDigit(c)
    ensures d < 10 && DigitChar(d) == c
  {
    c as int - '0' as int
  }

  function Pow10(n: nat): (p: nat)
    ensures p >= 1
  {
    if n == 0 then 1 else 10 * Pow10(n - 1)
  }

  /** The number a string of decimal digits denotes. */
  function DigitsValue(s: string): (v: nat)
    requires AllDigits(s)
    ensures v < Pow10(|s|)
  {
    if s == [] then 0 else DigitsValue(s[..|s| - 1]) * 10 + DigitValue(s[|s| - 1])
  }

  /** The lowest `w` decimal digits of `n`, most significant first and zero-padded. */
  function Digits(n: nat, w: nat): (r: string)
    ensures |r| == w && AllDigits(r)
  {
    if w == 0 then [] else Digits(n / 10, w - 1) + [DigitChar(n % 10)]
  }

  /** Two numbers below `10^w` compare, and are equal, as their `w`-digit strings do. */
  lemma DigitsCompare(n: nat, m: nat, w: nat)
    requires n < Pow10(w) && m < Pow10(w)
    ensures Less(Digits(n, w), Digits(m, w)) <==> n < m
    ensures Digits(n, w) == Digits(m, w) <==> n == m
  {
    LessDigits(n, m, w);
    DigitsRoundTrip(n, w);
    DigitsRoundTrip(m, w);
  }

  /** Reading back `w` digits of a number below `10^w` gives the number. */
  lemma {:induction false} DigitsRoundTrip(n: nat, w: nat)
    requires n < Pow10(w)
    ensures DigitsValue(Digits(n, w)) == n
  {
    if w > 0 {
      DigitsRoundTrip(n / 10, w - 1);
      var r := Digits(n, w);
      assert r[..|r| - 1] == Digits(n / 10, w - 1);
    }
  }

  /** Fixed-width digit strings compare as the numbers they write. */
  lemma {:induction false} LessDigits(n: nat, m: nat, w: nat)
    requires n < Pow10(w) && m < Pow10(w)
    ensures Less(Digits(n, w), Digits(m, w)) <==> n < m
  {
    if w == 0 {
      assert n == 0 && m == 0;
    } else {
      LessDigits(n / 10, m / 10, w - 1);
      LessConcat(Digits(n / 10, w - 1), [DigitChar(n % 10)], Digits(m / 10, w - 1), [DigitChar(m % 10)]);
      DigitsRoundTrip(n / 10, w - 1);
      DigitsRoundTrip(m / 10, w - 1);
      assert Less([DigitChar(n % 10)], [DigitChar(m % 10)]) <==> n % 10 < m % 10 by {
        assert [DigitChar(n % 10)][1..] == [] && [DigitChar(m % 10)][1..] == [];
      }
      assert n == 10 * (n / 10) + n % 10 && m == 10 * (m / 10) + m % 10;
    }
  }

  /** Writing back the digits of a digit string gives the string. */
  lemma {:induction false} DigitsOfValue(s: string)
    requires AllDigits(s)
    ensures Digits(DigitsValue(s), |s|) == s
  {
    if s != [] {
      var init, last := s[..|s| - 1], s[|s| - 1];
      DigitsOfValue(init);
      var v := DigitsValue(s);
      AppendDigit(DigitsValue(init), DigitValue(last));
      assert Digits(v, |s|) == Digits(DigitsValue(init), |init|) + [DigitChar(DigitValue(last))];
      assert s == init + [last];
    }
  }

  /** Appending the digit `d` to the number `a` is undone by `/ 10` and `% 10`. */
  lemma AppendDigit(a: nat, d: nat)
    requires d < 10
    ensures (a * 10 + d) / 10 == a && (a * 10 + d) % 10 == d
  {
  }

  /** `n.toString()` for a natural number: no leading zero. */
  function NatToString(n: nat): (r: string)
    ensures |r| >= 1 && AllDigits(r)
    ensures |r| > 1 ==> r[0] != '0'
  {
    if n < 10 then [DigitChar(n)] else NatToString(n / 10) + [DigitChar(n % 10)]
  }

  lemma {:induction false} NatToStringValue(n: nat)
    ensures DigitsValue(NatToString(n)) == n
  {
    if n >= 10 {
      NatToStringValue(n / 10);
      var r := NatToString(n);
      assert r[..|r| - 1] == NatToString(n / 10);
    }
  }

  /** `i.toString()` for an integer. */
  function IntToString(i: int): (r: string)
    ensures |r| >= 1
  {
    if i < 0 then "-" + NatToString(-i) else NatToString(i)
  }

  /** A number below `10^w` takes at most `w` digits. */
  lemma {:induction false} NatToStringShort(n: nat, w: nat)
    requires w >= 1 && n < Pow10(w)
    ensures |NatToString(n)| <= w
  {
    if n >= 10 {
      assert w >= 2;
      NatToStringShort(n / 10, w - 1);
    }
  }

  /** Zeros in front do not change a digit string's value. */
  lemma {:induction false} LeadingZeros(k: nat, t: string)
    requires AllDigits(t)
    ensures AllDigits(seq(k, _ => '0') + t)
    ensures DigitsValue(seq(k, _ => '0') + t) == DigitsValue(t)
    decreases |t|, k
  {
    var z: string := seq(k, _ => '0');
    if t == [] {
      assert z + t == z;
      if k > 0 {
        LeadingZeros(k - 1, []);
        assert z[..k - 1] == seq(k - 1, _ => '0') + [];
        assert DigitsValue(z) == DigitsValue(z[..k - 1]) * 10 + DigitValue(z[k - 1]);
      }
    } else {
      var init := t[..|t| - 1];
      LeadingZeros(k, init);
      assert (z + t)[..|z + t| - 1] == z + init;
    }
  }

  /** Padding a string shorter than the width puts the fill characters in front. */
  lemma PadStartShort(s: string, n: nat, c: char)
    requires |s| <= n
    ensures PadStart(s, n, c) == seq(n - |s|, _ => c) + s
  {
  }

  /** `n.toString().padStart(w, "0")` for a number below `10^w` is its `w` digits. */
  lemma PadDigits(n: nat, w: nat)
    requires w >= 1 && n < Pow10(w)
    ensures PadStart(NatToString(n), w, '0') == Digits(n, w)
  {
    var t := NatToString(n);
    NatToStringShort(n, w);
    NatToStringValue(n);
    PadStartShort(t, w, '0');
    var pad: string := seq(w - |t|, _ => '0') + t;
    LeadingZeros(w - |t|, t);
    assert |pad| == w;
    DigitsOfValue(pad);
  }

  /** A number of exactly `w` digits is written with `w` characters. */
  lemma {:induction false} NatToStringLength(n: nat, w: nat)
    requires w >= 1 && Pow10(w - 1) <= n < Pow10(w)
    ensures |NatToString(n)| == w
  {
    if w > 1 {
      assert Pow10(w - 1) == 10 * Pow10(w - 2);
      NatToStringLength(n / 10, w - 1);
    }
  }

  /** The last character of a number's string is its units digit. */
  lemma NatToStringLast(n: nat)
    ensures NatToString(n)[|NatToString(n)| - 1] == DigitChar(n % 10)
  {
  }

  /** The tens and units digits of `n` are those of `n % 100`. */
  lemma LastTwoDigits(n: nat)
    ensures (n / 10) % 10 == (n % 100) / 10 && n % 10 == (n % 100) % 10
  {
    var q := n / 100;
    var r := n % 100;
    assert n == 100 * q + r && 0 <= r < 100;
    assert n / 10 == 10 * q + r / 10;
    assert n % 10 == r % 10;
  }

  /** The last two characters of a number of two or more digits are its value modulo 100, in two digits. */
  lemma NatToStringLastTwo(n: nat)
    requires n >= 10
    ensures TakeLast(NatToString(n), 2) == Digits(n % 100, 2)
  {
    var s, r := NatToString(n), n % 100;
    assert |s| >= 2 && s[|s| - 2] == DigitChar(r / 10) && s[|s| - 1] == DigitChar(r % 10) by {
      var head := NatToString(n / 10);
      assert s == head + [DigitChar(n % 10)];
      NatToStringLast(n / 10);
      LastTwoDigits(n);
    }
    TakeLastTwo(s);
    TwoDigits(r);
  }

  /** The last two characters of a string of two or more. */
  lemma TakeLastTwo(s: string)
    requires |s| >= 2
    ensures TakeLast(s, 2) == [s[|s| - 2], s[|s| - 1]]
  {
  }

  /** A number below 100 in two digits: its tens, then its units. */
  lemma TwoDigits(r: nat)
    requires r < 100
    ensures Digits(r, 2) == [DigitChar(r / 10), DigitChar(r % 10)]
  {
    assert Digits(r / 10, 1) == [DigitChar(r / 10 % 10)];
  }

}
