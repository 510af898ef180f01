/**
 * The string operations of the JavaScript runtime that the handlers rely on:
 * `String.prototype.split` on a one-character separator, `Array.prototype.join`,
 * and the decimal rendering of an integer inside a template literal.
 */
module Strings {
  import opened Wrappers

  /** `s.split(c)`: the segments of `s` between occurrences of `c`, in order. */
  function Split(s: string, c: char): (parts: seq<string>)
    ensures |parts| >= 1
    ensures forall i :: 0 <= i < |parts| ==> c !in parts[i]
    ensures (|parts| == 1) == (c !in s)
  {
    if |s| == 0 then [""]
    else
      var rest := Split(s[1..], c);
      if s[0] == c then [""] + rest
      else [[s[0]] + rest[0]] + rest[1..]
  }

  /** Total length of the parts. */
  function TotalLength(parts: seq<string>): nat
  {
    if parts == [] then 0 else |parts[0]| + TotalLength(parts[1..])
  }

  /**
   * `parts.join(sep)`: the parts with `sep` between neighbours, so one copy of
   * `sep` fewer than there are parts.
   */
  function Join(parts: seq<string>, sep: string): (s: string)
    ensures parts == [] ==> s == ""
  {
    if |parts| == 0 then ""
    else if |parts| == 1 then parts[0]
    else parts[0] + sep + Join(parts[1..], sep)
  }

  /** The joined string holds every part and one separator fewer than there are parts. */
  lemma {:induction false} JoinLength(parts: seq<string>, sep: string)
    requires parts != []
    ensures |Join(parts, sep)| + |sep| == TotalLength(parts) + |parts| * |sep|
  {
    if |parts| > 1 {
      JoinLength(parts[1..], sep);
      assert |parts| * |sep| == |sep| + (|parts| - 1) * |sep|;
    }
  }

  /** Joining the segments of a split with the separator gives back the string. */
  lemma {:induction false} JoinSplit(s: string, c: char)
    ensures Join(Split(s, c), [c]) == s
  {
    if |s| > 0 {
      var rest := Split(s[1..], c);
      JoinSplit(s[1..], c);
      if s[0] == c {
        assert Split(s, c) == [""] + rest;
        assert (["" ] + rest)[1..] == rest;
        assert s == [c] + s[1..];
      } else {
        var parts := [[s[0]] + rest[0]] + rest[1..];
        assert Split(s, c) == parts;
        if |rest| == 1 {
          assert Join(parts, [c]) == [s[0]] + rest[0];
          assert s == [s[0]] + s[1..];
        } else {
          assert parts[1..] == rest[1..];
          assert Join(parts, [c]) == [s[0]] + rest[0] + [c] + Join(rest[1..], [c]);
          assert Join(rest, [c]) == rest[0] + [c] + Join(rest[1..], [c]);
          assert s == [s[0]] + s[1..];
        }
      }
    }
  }

  /**
   * The first segment of a split is the text before the first separator; when
   * there is a second segment it is the text between the first and second one.
   */
  lemma {:induction false} SplitHead(s: string, c: char)
    ensures var parts := Split(s, c);
      && |parts[0]| <= |s| && s[..|parts[0]|] == parts[0]
      && (|parts| == 1 ==> s == parts[0])
      && (|parts| > 1 ==>
            var n := |parts[0]|;
            && n + 1 + |parts[1]| <= |s|
            && s[n] == c
            && s[n + 1 .. n + 1 + |parts[1]|] == parts[1]
            && (n + 1 + |parts[1]| == |s| || s[n + 1 + |parts[1]|] == c))
  {
    var parts := Split(s, c);
    JoinSplit(s, c);
    if |parts| > 1 {
      var tail := parts[1..];
      assert Join(parts, [c]) == parts[0] + [c] + Join(tail, [c]);
      if |tail| == 1 {
        assert Join(tail, [c]) == parts[1];
      } else {
        assert Join(tail, [c]) == parts[1] + [c] + Join(tail[1..], [c]);
      }
    }
  }

  /** Position at which `parts[i]` starts inside `Join(parts, sep)`. */
  function JoinOffset(parts: seq<string>, sep: string, i: nat): nat
    requires i < |parts|
  {
    if i == 0 then 0 else |parts[0]| + |sep| + JoinOffset(parts[1..], sep, i - 1)
  }

  /** The prefix of a concatenation as long as its first operand is that operand. */
  lemma SlicePrefix(a: string, b: string)
    ensures (a + b)[..|a|] == a
  {
  }

  /** Slicing past a prefix slices the suffix. */
  lemma SliceShift(a: string, b: string, x: nat, y: nat)
    requires x <= y <= |b|
    ensures |a| + y <= |a + b|
    ensures (a + b)[|a| + x .. |a| + y] == b[x..y]
  {
  }

  /** `parts[i]` occurs in the joined string at its offset. */
  lemma {:induction false} JoinPart(parts: seq<string>, sep: string, i: nat)
    requires i < |parts|
    ensures JoinOffset(parts, sep, i) + |parts[i]| <= |Join(parts, sep)|
    ensures Join(parts, sep)[JoinOffset(parts, sep, i) .. JoinOffset(parts, sep, i) + |parts[i]|] == parts[i]
  {
    if |parts| == 1 {
      assert parts[0][0 .. |parts[0]|] == parts[0];
    } else {
      var pre, rest := parts[0] + sep, Join(parts[1..], sep);
      if i == 0 {
        SlicePrefix(parts[0], sep + rest);
        assert pre + rest == parts[0] + (sep + rest);
      } else {
        JoinPart(parts[1..], sep, i - 1);
        var off := JoinOffset(parts[1..], sep, i - 1);
        SliceShift(pre, rest, off, off + |parts[i]|);
        assert parts[1..][i - 1] == parts[i];
      }
    }
  }

  /** The last part ends the joined string. */
  lemma {:induction false} JoinEnd(parts: seq<string>, sep: string)
    requires parts != []
    ensures JoinOffset(parts, sep, |parts| - 1) + |parts[|parts| - 1]| == |Join(parts, sep)|
  {
    if |parts| > 1 {
      JoinEnd(parts[1..], sep);
      assert |Join(parts, sep)| == |parts[0]| + |sep| + |Join(parts[1..], sep)|;
    }
  }

  /** Every part but the last is followed by the separator, and the next part starts after it. */
  lemma {:induction false} JoinSep(parts: seq<string>, sep: string, i: nat)
    requires i + 1 < |parts|
    ensures var j, off := Join(parts, sep), JoinOffset(parts, sep, i) + |parts[i]|;
      && JoinOffset(parts, sep, i + 1) == off + |sep|
      && off + |sep| <= |j|
      && j[off .. off + |sep|] == sep
  {
    var pre, rest := parts[0] + sep, Join(parts[1..], sep);
    assert Join(parts, sep) == pre + rest;
    if i == 0 {
      assert (pre + rest)[|parts[0]| .. |pre|] == sep;
    } else {
      JoinSep(parts[1..], sep, i - 1);
      var off := JoinOffset(parts[1..], sep, i - 1) + |parts[i]|;
      SliceShift(pre, rest, off, off + |sep|);
    }
  }

  /**
   * Every part occurs in the joined string at its offset, in the order of
   * `parts`; each part but the last is followed by the separator, and the
   * last one ends the string.
   */
  lemma JoinSlice(parts: seq<string>, sep: string, i: nat)
    requires i < |parts|
    ensures var off := JoinOffset(parts, sep, i);
      && off + |parts[i]| <= |Join(parts, sep)|
      && Join(parts, sep)[off .. off + |parts[i]|] == parts[i]
      && (i + 1 < |parts| ==>
            && JoinOffset(parts, sep, i + 1) == off + |parts[i]| + |sep|
            && off + |parts[i]| + |sep| <= |Join(parts, sep)|
            && Join(parts, sep)[off + |parts[i]| .. off + |parts[i]| + |sep|] == sep)
      && (i + 1 == |parts| ==> off + |parts[i]| == |Join(parts, sep)|)
  {
    JoinPart(parts, sep, i);
    if i + 1 < |parts| {
      JoinSep(parts, sep, i);
    } else {
      JoinEnd(parts, sep);
    }
  }

  /** `parts[i]` occurs in `pre + Join(parts, sep)` at its offset moved right by `|pre|`. */
  lemma PrefixedJoinPart(pre: string, parts: seq<string>, sep: string, i: nat)
    requires i < |parts|
    ensures |pre| + JoinOffset(parts, sep, i) + |parts[i]| <= |pre + Join(parts, sep)|
    ensures (pre + Join(parts, sep))[|pre| + JoinOffset(parts, sep, i) .. |pre| + JoinOffset(parts, sep, i) + |parts[i]|]
      == parts[i]
  {
    var off := JoinOffset(parts, sep, i);
    JoinPart(parts, sep, i);
    SliceShift(pre, Join(parts, sep), off, off + |parts[i]|);
  }

  /**
   * In `pre + Join(parts, sep)` every part but the last is followed by `sep`,
   * and the last part ends the string.
   */
  lemma PrefixedJoinSep(pre: string, parts: seq<string>, sep: string, i: nat)
    requires i < |parts|
    ensures i + 1 < |parts| ==>
      && |pre| + JoinOffset(parts, sep, i) + |parts[i]| + |sep| <= |pre + Join(parts, sep)|
      && (pre + Join(parts, sep))[|pre| + JoinOffset(parts, sep, i) + |parts[i]| .. |pre| + JoinOffset(parts, sep, i) + |parts[i]| + |sep|]
         == sep
    ensures i + 1 == |parts| ==> |pre| + JoinOffset(parts, sep, i) + |parts[i]| == |pre + Join(parts, sep)|
  {
    var end := JoinOffset(parts, sep, i) + |parts[i]|;
    if i + 1 < |parts| {
      JoinSep(parts, sep, i);
      SliceShift(pre, Join(parts, sep), end, end + |sep|);
    } else {
      JoinEnd(parts, sep);
    }
  }

  /** The digit character of `d`. */
  function DigitChar(d: nat): char
    requires d < 10
  {
    ('0' as int + d) as char
  }

  predicate IsDigit(ch: char) { '0' <= ch <= '9' }

  predicate AllDigits(s: string) { forall i :: 0 <= i < |s| ==> IsDigit(s[i]) }

  /** Decimal digits of a natural number, most significant first, without leading zeros. */
  function NatDigits(n: nat): (s: string)
    ensures |s| >= 1 && AllDigits(s)
    ensures |s| > 1 ==> s[0] != '0'
  {
    if n < 10 then [DigitChar(n)] else NatDigits(n / 10) + [DigitChar(n % 10)]
  }

  /** How a JavaScript template literal renders an integer-valued number. */
  function DecimalString(n: int): (s: string)
    ensures |s| >= 1
    ensures n >= 0 <==> AllDigits(s)
    ensures s[0] == '0' ==> s == "0"
    ensures n < 0 ==> |s| >= 2 && s[0] == '-' && s[1] != '0' && AllDigits(s[1..])
  {
    if n < 0 then
      var s := "-" + NatDigits(-n);
      assert !IsDigit(s[0]);
      s
    else NatDigits(n)
  }

  /** The value of a string of decimal digits. */
  function DigitsValue(s: string): nat
    requires AllDigits(s)
  {
    if |s| == 0 then 0
    else DigitsValue(s[..|s| - 1]) * 10 + (s[|s| - 1] as int - '0' as int)
  }

  /** Reads an optionally negative decimal integer; the reference reading of `DecimalString`. */
  function ParseDecimal(s: string): Option<int>
  {
    if |s| > 0 && AllDigits(s) then Some(DigitsValue(s))
    else if |s| > 1 && s[0] == '-' && AllDigits(s[1..]) then Some(0 - DigitsValue(s[1..]))
    else None
  }

  lemma {:induction false} NatDigitsValue(n: nat)
    ensures DigitsValue(NatDigits(n)) == n
  {
    var s := NatDigits(n);
    if n >= 10 {
      NatDigitsValue(n / 10);
      assert s[..|s| - 1] == NatDigits(n / 10);
    }
  }

  /** Reading back the decimal rendering of an integer gives the integer. */
  lemma DecimalRoundTrip(n: int)
    ensures ParseDecimal(DecimalString(n)) == Some(n)
  {
    if n < 0 {
      var s := DecimalString(n);
      assert s[1..] == NatDigits(-n);
      assert !IsDigit(s[0]);
      NatDigitsValue(-n);
    } else {
      NatDigitsValue(n);
    }
  }
}
