/** String helpers with Python's meaning: `str.split`, `str.join`,
    `str.strip`, `int()` on decimal text, `str(n)`, and zero padding. */
module Text {
  import opened Wrappers

  predicate IsDigit(c: char) { '0' <= c <= '9' }

  /** Concatenation regroups freely; stated on its own so that proofs
      about long sequences need not rederive it among their facts. */
  lemma AppendAssociative<T>(x: seq<T>, y: seq<T>, z: seq<T>)
    ensures (x + y) + z == x + (y + z)
  {
  }

  /** A concatenation of five parts is its first part followed by the
      concatenation of the other four. */
  lemma FiveParts<T>(h: seq<T>, a: seq<T>, b: seq<T>, c: seq<T>, d: seq<T>)
    ensures h + a + b + c + d == h + (a + b + c + d)
    ensures (h + (a + b + c + d))[|h|..] == a + b + c + d
  {
    AppendAssociative(h, a, b);
    AppendAssociative(h, a + b, c);
    AppendAssociative(h, a + b + c, d);
  }

  /** Dropping the last element of a concatenation that ends in it, and
      regrouping the rest. */
  lemma DropLastRegrouped<T>(p: seq<T>, s: seq<T>, c: seq<T>, d: seq<T>, e: T)
    ensures var t := p + (s + c + d) + [e]; t != [] && t[..|t| - 1] == p + s + c + d
  {
    var t := p + (s + c + d) + [e];
    assert t[..|t| - 1] == p + (s + c + d);
    AppendAssociative(p, s, c);
    AppendAssociative(p, s + c, d);
  }

  lemma DropFirst<T>(a: seq<T>, b: seq<T>)
    requires a != []
    ensures (a + b)[1..] == a[1..] + b
  {
  }

  /** Where the three parts of a concatenation lie in it. */
  lemma ThreeParts<T>(x: seq<T>, y: seq<T>, z: seq<T>)
    ensures |x + y + z| == |x| + |y| + |z|
    ensures (x + y + z)[..|x|] == x
    ensures forall k :: 0 <= k < |y| ==> (x + y + z)[|x| + k] == y[k]
    ensures (x + y + z)[|x| + |y|..] == z
  {
    assert (x + y + z)[..|x|] == x;
    assert (x + y + z)[|x| + |y|..] == z;
  }

  predicate AllDigits(s: string)
  {
    forall i :: 0 <= i < |s| ==> IsDigit(s[i])
  }

  function DigitValue(c: char): (d: nat)
    requires IsDigit(c)
    ensures d < 10
  {
    (c as int) - ('0' as int)
  }

  function DigitChar(d: nat): (c: char)
    requires d < 10
    ensures IsDigit(c) && DigitValue(c) == d
  {
    (('0' as int) + d) as char
  }

  /** Decimal rendering of a natural number, as Python's `str(n)`. */
  function NatToString(n: nat): (s: string)
    ensures |s| > 0 && AllDigits(s)
    ensures |s| > 1 ==> s[0] != '0'
    decreases n
  {
    if n < 10 then [DigitChar(n)] else NatToString(n / 10) + [DigitChar(n % 10)]
  }

  /** The value of a string of decimal digits, read left to right. */
  function DigitsValue(s: string): nat
    requires AllDigits(s)
  {
    if s == [] then 0 else DigitsValue(s[..|s| - 1]) * 10 + DigitValue(s[|s| - 1])
  }

  /** Python's `int(s)` on unsigned decimal text: `None` where `int` raises. */
  function ParseNat(s: string): (r: Option<nat>)
    ensures r.Some? <==> |s| > 0 && AllDigits(s)
  {
    if |s| > 0 && AllDigits(s) then Some(DigitsValue(s)) else None
  }

  /** Python's `int(s)`: an optional sign followed by decimal digits. */
  function ParseInt(s: string): (r: Option<int>)
    ensures r.Some? <==> (|s| > 0 && AllDigits(s)) ||
                         (|s| > 1 && (s[0] == '-' || s[0] == '+') && AllDigits(s[1..]))
  {
    if |s| > 0 && (s[0] == '-' || s[0] == '+') then
      match ParseNat(s[1..])
      case Some(n) => Some(if s[0] == '-' then 0 - n else n as int)
      case None => None
    else
      match ParseNat(s)
      case Some(n) => Some(n)
      case None => None
  }

  lemma {:induction false} DigitsValueOfNatToString(n: nat)
    ensures DigitsValue(NatToString(n)) == n
    decreases n
  {
    if n >= 10 {
      var s := NatToString(n);
      assert s[..|s| - 1] == NatToString(n / 10);
      DigitsValueOfNatToString(n / 10);
    }
  }

  /** `int(str(n)) == n`. */
  lemma ParseNatToString(n: nat)
    ensures ParseNat(NatToString(n)) == Some(n)
    ensures ParseInt(NatToString(n)) == Some(n)
  {
    DigitsValueOfNatToString(n);
  }

  /** `str(n)` is injective, so rendering loses nothing. */
  lemma NatToStringInjective(m: nat, n: nat)
    requires NatToString(m) == NatToString(n)
    ensures m == n
  {
    ParseNatToString(m);
    ParseNatToString(n);
  }

  /** Python's `sep.join(parts)`. */
  function Join(parts: seq<string>, sep: string): string
  {
    if |parts| == 0 then ""
    else if |parts| == 1 then parts[0]
    else parts[0] + sep + Join(parts[1..], sep)
  }

  /** Python's `s.split(sep)` for a one-character separator: always at least
      one piece, and no piece holds the separator. */
  function Split(s: string, sep: char): (parts: seq<string>)
    ensures |parts| > 0
    ensures forall i :: 0 <= i < |parts| ==> sep !in parts[i]
    ensures sep !in s ==> parts == [s]
  {
    if s == [] then [""]
    else
      var rest := Split(s[1..], sep);
      if s[0] == sep then [""] + rest
      else
        assert sep !in s ==> sep !in s[1..] && rest == [s[1..]];
        assert [s[0]] + s[1..] == s;
        [[s[0]] + rest[0]] + rest[1..]
  }

  /** Splitting and joining again gives back the original text. */
  lemma {:induction false} JoinSplit(s: string, sep: char)
    ensures Join(Split(s, sep), [sep]) == s
  {
    if s != [] {
      JoinSplit(s[1..], sep);
      var rest := Split(s[1..], sep);
      if s[0] != sep {
        if |rest| > 1 {
          assert [[s[0]] + rest[0]] + rest[1..] == [[s[0]] + rest[0]] + rest[1..];
          assert Join(rest, [sep]) == rest[0] + [sep] + Join(rest[1..], [sep]);
        }
      }
    }
  }

  lemma {:induction false} SplitAfterPiece(piece: string, sep: char, rest: string)
    requires sep !in piece
    ensures Split(piece + [sep] + rest, sep) == [piece] + Split(rest, sep)
  {
    if piece == [] {
      assert piece + [sep] + rest == [sep] + rest;
      assert ([sep] + rest)[1..] == rest;
    } else {
      var s := piece + [sep] + rest;
      DropFirst(piece, [sep]);
      DropFirst(piece + [sep], rest);
      SplitAfterPiece(piece[1..], sep, rest);
      var after := Split(s[1..], sep);
      assert after[0] == piece[1..] && after[1..] == Split(rest, sep);
      assert [piece[0]] + piece[1..] == piece;
    }
  }

  /** Joining pieces free of the separator and splitting again gives back
      the pieces. */
  lemma {:induction false} SplitJoin(parts: seq<string>, sep: char)
    requires |parts| > 0
    requires forall i :: 0 <= i < |parts| ==> sep !in parts[i]
    ensures Split(Join(parts, [sep]), sep) == parts
  {
    if |parts| > 1 {
      SplitJoin(parts[1..], sep);
      SplitAfterPiece(parts[0], sep, Join(parts[1..], [sep]));
      assert [parts[0]] + parts[1..] == parts;
    }
  }

  /** A join starts with its first part. */
  lemma JoinFirst(parts: seq<string>, sep: string)
    requires |parts| > 0
    ensures Join(parts, sep)[..|parts[0]|] == parts[0]
  {
  }

  /** A join ends with its last part. */
  lemma {:induction false} JoinLast(parts: seq<string>, sep: string)
    requires |parts| > 0
    ensures var j := Join(parts, sep); var l := parts[|parts| - 1];
      |l| <= |j| && j[|j| - |l|..] == l
  {
    if |parts| > 1 {
      JoinLast(parts[1..], sep);
    }
  }

  lemma {:induction false} JoinSnoc(parts: seq<string>, x: string, sep: string)
    ensures Join(parts + [x], sep) == if parts == [] then x else Join(parts, sep) + sep + x
  {
    if |parts| > 1 {
      assert (parts + [x])[1..] == parts[1..] + [x];
      JoinSnoc(parts[1..], x, sep);
    } else if |parts| == 1 {
      assert (parts + [x])[1..] == [x];
    }
  }

  /** The number of leading copies of `c` in `s`. */
  function LeadingCount(s: string, c: char): (k: nat)
    ensures k <= |s|
    ensures forall i :: 0 <= i < k ==> s[i] == c
    ensures k < |s| ==> s[k] != c
  {
    if s == [] || s[0] != c then 0 else 1 + LeadingCount(s[1..], c)
  }

  /** The number of trailing copies of `c` in `s`. */
  function TrailingCount(s: string, c: char): (k: nat)
    ensures k <= |s|
    ensures forall i :: |s| - k <= i < |s| ==> s[i] == c
    ensures k < |s| ==> s[|s| - 1 - k] != c
  {
    if s == [] || s[|s| - 1] != c then 0 else 1 + TrailingCount(s[..|s| - 1], c)
  }

  /** Python's `s.strip(c)`: `s` without its leading and trailing `c`s. */
  function Strip(s: string, c: char): (r: string)
    ensures |r| > 0 ==> r[0] != c && r[|r| - 1] != c
    ensures exists a, b :: 0 <= a <= b <= |s| && r == s[a..b] &&
                           (forall i :: 0 <= i < a ==> s[i] == c) &&
                           (forall i :: b <= i < |s| ==> s[i] == c)
  {
    var a := LeadingCount(s, c);
    var rest := s[a..];
    var b := TrailingCount(rest, c);
    var r := rest[..|rest| - b];
    assert r == s[a..a + |rest| - b];
    assert |r| > 0 ==> r[0] == s[a];
    r
  }

  /** Stripping a text that does not start or end with `c` removes just
      the copies of `c` put in front of it. */
  lemma StripLeading(s: string, c: char)
    requires |s| > 0 && s[0] != c && s[|s| - 1] != c
    ensures Strip([c] + s, c) == s
  {
    var t := [c] + s;
    assert LeadingCount(t, c) == 1 by {
      assert t[1..] == s;
    }
    assert t[1..] == s;
    assert TrailingCount(s, c) == 0;
  }

  function Repeat(c: char, n: nat): (r: string)
    ensures |r| == n && forall i :: 0 <= i < n ==> r[i] == c
  {
    if n == 0 then "" else [c] + Repeat(c, n - 1)
  }

  /** Python's `s.rjust(width, c)`: `s` left-padded with `c` up to `width`. */
  function PadLeft(s: string, width: nat, c: char): (r: string)
    ensures |r| == if |s| < width then width else |s|
    ensures r[|r| - |s|..] == s
    ensures forall i :: 0 <= i < |r| - |s| ==> r[i] == c
  {
    if |s| < width then Repeat(c, width - |s|) + s else s
  }

  /** Stripping the padding character again from a padded text gives the
      text back, when the text does not itself start with that character. */
  lemma LeadingPad(s: string, width: nat, c: char)
    requires s == [] || s[0] != c
    ensures LeadingCount(PadLeft(s, width, c), c) == |PadLeft(s, width, c)| - |s|
  {
  }

  /** Python's `a <= b` on strings: code point by code point, with a
      prefix before every longer text. */
  predicate TextLe(a: string, b: string)
  {
    a == [] || (b != [] && (a[0] < b[0] || (a[0] == b[0] && TextLe(a[1..], b[1..]))))
  }

  lemma {:induction false} TextLeTotal(a: string, b: string)
    ensures TextLe(a, b) || TextLe(b, a)
  {
    if a != [] && b != [] && a[0] == b[0] {
      TextLeTotal(a[1..], b[1..]);
    }
  }

  lemma {:induction false} TextLeTransitive(a: string, b: string, c: string)
    requires TextLe(a, b) && TextLe(b, c)
    ensures TextLe(a, c)
  {
    if a != [] && a[0] == b[0] && b[0] == c[0] {
      TextLeTransitive(a[1..], b[1..], c[1..]);
    }
  }

  lemma {:induction false} TextLeAntisymmetric(a: string, b: string)
    requires TextLe(a, b) && TextLe(b, a)
    ensures a == b
  {
    if a != [] {
      TextLeAntisymmetric(a[1..], b[1..]);
      assert a == [a[0]] + a[1..] && b == [b[0]] + b[1..];
    }
  }

  /** Python's `s.replace(old, new, 1)` for a one-character `target`. */
  function ReplaceFirst(s: string, target: char, repl: string): string
  {
    if s == [] then ""
    else if s[0] == target then repl + s[1..]
    else [s[0]] + ReplaceFirst(s[1..], target, repl)
  }

  lemma {:induction false} ReplaceFirstAfterPrefix(prefix: string, target: char, repl: string, rest: string)
    requires target !in prefix
    ensures ReplaceFirst(prefix + [target] + rest, target, repl) == prefix + repl + rest
  {
    if prefix != [] {
      assert (prefix + [target] + rest)[1..] == prefix[1..] + [target] + rest;
      ReplaceFirstAfterPrefix(prefix[1..], target, repl, rest);
    } else {
      assert prefix + [target] + rest == [target] + rest;
    }
  }
}
