/** String helpers with the semantics of the source languages: Python's
    `str.split(sep)` and `sep.join(parts)`, and the decimal rendering of an
    integer in a JavaScript template string. */
module Text {

  /** Python `s.split(sep)` for a one-character separator: the pieces between
      separators, empty pieces included, so `"".split(",") == [""]`. */
  function Split(s: string, sep: char): (parts: seq<string>)
    ensures |parts| >= 1
    decreases |s|
  {
    if s == [] then [""]
    else
      var rest := Split(s[1..], sep);
      if s[0] == sep then [""] + rest else [[s[0]] + rest[0]] + rest[1..]
  }

  /** Python `sep.join(parts)`; `",".join([]) == ""`. */
  function Join(parts: seq<string>, sep: char): string
    decreases |parts|
  {
    if |parts| == 0 then ""
    else if |parts| == 1 then parts[0]
    else parts[0] + [sep] + Join(parts[1..], sep)
  }

  predicate NoSep(parts: seq<string>, sep: char) {
    forall i | 0 <= i < |parts| :: sep !in parts[i]
  }

  /** No piece of a split contains the separator. */
  lemma {:induction false} SplitPiecesHaveNoSep(s: string, sep: char)
    ensures NoSep(Split(s, sep), sep)
    decreases |s|
  {
    if s != [] {
      SplitPiecesHaveNoSep(s[1..], sep);
      var rest := Split(s[1..], sep);
      var parts := Split(s, sep);
      if s[0] != sep {
        forall i | 0 <= i < |parts| ensures sep !in parts[i] {
          if i > 0 { assert parts[i] == rest[i]; }
        }
      } else {
        forall i | 0 <= i < |parts| ensures sep !in parts[i] {
          if i > 0 { assert parts[i] == rest[i - 1]; }
        }
      }
    }
  }

  /** Joining the pieces of a split gives the string back. */
  lemma {:induction false} JoinSplit(s: string, sep: char)
    ensures Join(Split(s, sep), sep) == s
    decreases |s|
  {
    if s != [] {
      JoinSplit(s[1..], sep);
      var rest := Split(s[1..], sep);
      if s[0] == sep {
        assert ([""] + rest)[1..] == rest;
      } else {
        var parts := [[s[0]] + rest[0]] + rest[1..];
        if |rest| == 1 {
          assert parts == [[s[0]] + rest[0]];
        } else {
          assert parts[1..] == rest[1..];
          assert Join(rest, sep) == rest[0] + [sep] + Join(rest[1..], sep);
        }
      }
    }
  }

  /** Splitting a string with no separator in its first `|a|` characters. */
  lemma {:induction false} SplitUnfold(a: string, tail: string, sep: char)
    requires sep !in a
    ensures Split(a + tail, sep) == [a + Split(tail, sep)[0]] + Split(tail, sep)[1..]
    decreases |a|
  {
    if a != [] {
      assert (a + tail)[1..] == a[1..] + tail;
      SplitUnfold(a[1..], tail, sep);
      var t := Split(tail, sep);
      var rest := Split(a[1..] + tail, sep);
      assert rest == [a[1..] + t[0]] + t[1..];
      assert rest[0] == a[1..] + t[0] && rest[1..] == t[1..];
      assert (a + tail)[0] == a[0] && a[0] != sep;
      assert Split(a + tail, sep) == [[a[0]] + rest[0]] + rest[1..];
      assert [a[0]] + (a[1..] + t[0]) == a + t[0];
    } else {
      assert a + tail == tail;
      assert a + Split(tail, sep)[0] == Split(tail, sep)[0];
      assert Split(tail, sep) == [Split(tail, sep)[0]] + Split(tail, sep)[1..];
    }
  }

  /** Splitting a join of separator-free pieces gives the pieces back. */
  lemma {:induction false} SplitJoin(parts: seq<string>, sep: char)
    requires |parts| >= 1 && NoSep(parts, sep)
    ensures Split(Join(parts, sep), sep) == parts
    decreases |parts|
  {
    if |parts| == 1 {
      SplitUnfold(parts[0], "", sep);
      assert parts[0] + "" == parts[0];
    } else {
      var rest := parts[1..];
      assert NoSep(rest, sep) by {
        forall i | 0 <= i < |rest| ensures sep !in rest[i] { assert rest[i] == parts[i + 1]; }
      }
      SplitJoin(rest, sep);
      var tail := [sep] + Join(rest, sep);
      assert parts[0] + [sep] + Join(rest, sep) == parts[0] + tail;
      SplitUnfold(parts[0], tail, sep);
      assert tail[1..] == Join(rest, sep);
      assert Split(tail, sep) == [""] + rest;
      assert parts[0] + "" == parts[0];
      assert parts == [parts[0]] + rest;
    }
  }

  /** The first piece of a split is the prefix up to the first separator. */
  lemma {:induction false} FirstPiece(s: string, sep: char)
    ensures |Split(s, sep)[0]| <= |s|
    ensures s[..|Split(s, sep)[0]|] == Split(s, sep)[0]
    ensures |Split(s, sep)[0]| == |s| || s[|Split(s, sep)[0]|] == sep
    ensures sep !in Split(s, sep)[0]
    ensures |Split(s, sep)| == 1 <==> sep !in s
    decreases |s|
  {
    if s != [] {
      FirstPiece(s[1..], sep);
      var rest := Split(s[1..], sep);
      var f := rest[0];
      if s[0] != sep {
        assert s[1..][..|f|] == f;
        assert s[..|f| + 1] == [s[0]] + s[1..][..|f|];
        if |f| < |s| - 1 {
          assert s[|f| + 1] == s[1..][|f|];
        }
        assert sep in s <==> sep in s[1..] by {
          assert s == [s[0]] + s[1..];
        }
      } else {
        assert sep in s;
      }
    }
  }

  /** The last piece of a split is the suffix after the last separator. */
  lemma {:induction false} LastPiece(s: string, sep: char)
    ensures |Split(s, sep)[|Split(s, sep)| - 1]| <= |s|
    ensures s[|s| - |Split(s, sep)[|Split(s, sep)| - 1]|..] == Split(s, sep)[|Split(s, sep)| - 1]
    ensures var l := Split(s, sep)[|Split(s, sep)| - 1];
      |l| == |s| || s[|s| - |l| - 1] == sep
    ensures sep !in Split(s, sep)[|Split(s, sep)| - 1]
    decreases |s|
  {
    if s != [] {
      LastPiece(s[1..], sep);
      FirstPiece(s[1..], sep);
      SplitPiecesHaveNoSep(s, sep);
      var rest := Split(s[1..], sep);
      var parts := Split(s, sep);
      var l' := rest[|rest| - 1];
      var l := parts[|parts| - 1];
      assert sep !in l;
      if s[0] == sep || |rest| > 1 {
        assert l == l';
        assert s[1..][|s| - 1 - |l'|..] == l';
        assert s[|s| - |l|..] == s[1..][|s| - 1 - |l'|..];
        if |l'| < |s| - 1 {
          assert s[|s| - |l| - 1] == s[1..][|s| - 1 - |l'| - 1];
        }
      } else {
        assert sep !in s[1..];
        assert l == [s[0]] + rest[0];
        assert |rest[0]| == |s| - 1;
        assert rest[0] == s[1..];
        assert l == s;
      }
    }
  }

  /** Decimal digits of a natural number, most significant first. */
  function NatToDecimal(n: nat): (s: string)
    decreases n
  {
    if n < 10 then [DigitChar(n)] else NatToDecimal(n / 10) + [DigitChar(n % 10)]
  }

  /** The character of decimal digit `d`: '0' is followed by '1' ... '9'. */
  function DigitChar(d: nat): (c: char)
    requires d < 10
    ensures IsDigit(c) && DigitValue(c) == d
  {
    (('0' as int) + d) as char
  }

  predicate IsDigit(c: char) { '0' <= c <= '9' }

  /** The value a string of decimal digits denotes. */
  function DecimalValue(s: string): nat
    requires forall i | 0 <= i < |s| :: IsDigit(s[i])
    decreases |s|
  {
    if s == [] then 0 else DecimalValue(s[..|s| - 1]) * 10 + DigitValue(s[|s| - 1])
  }

  function DigitValue(c: char): nat
    requires IsDigit(c)
  {
    (c as int) - ('0' as int)
  }

  /** The rendering is non-empty, all digits, without leading zero, and reads
      back as the number. */
  lemma {:induction false} NatToDecimalReadsBack(n: nat)
    ensures |NatToDecimal(n)| > 0
    ensures forall i | 0 <= i < |NatToDecimal(n)| :: IsDigit(NatToDecimal(n)[i])
    ensures |NatToDecimal(n)| > 1 ==> NatToDecimal(n)[0] != '0'
    ensures DecimalValue(NatToDecimal(n)) == n
    decreases n
  {
    if n >= 10 {
      NatToDecimalReadsBack(n / 10);
      var s := NatToDecimal(n);
      assert s[..|s| - 1] == NatToDecimal(n / 10);
      assert s[0] == NatToDecimal(n / 10)[0];
    }
  }

  /** A JavaScript template string `${i}` for an integral number. */
  function IntToDecimal(i: int): string {
    if i < 0 then "-" + NatToDecimal(-i) else NatToDecimal(i)
  }
}
