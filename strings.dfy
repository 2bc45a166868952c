/**
 * The JavaScript string operations the console builds its key, prefix and
 * search logic from: `split` on a one-character separator, `join`, `pop` of
 * the last piece, `includes`, `toLowerCase` and `Number.prototype.toString`,
 * each given a definition here and related to an independent characterisation.
 */
module Strings {

  /** `s.split(sep)` for a one-character separator: never empty, no piece holds `sep`. */
  function Split(s: string, sep: char): (parts: seq<string>)
    ensures |parts| >= 1
    ensures forall i :: 0 <= i < |parts| ==> sep !in parts[i]
    decreases |s|
  {
    if |s| == 0 then [""]
    else
      var rest := Split(s[1..], sep);
      if s[0] == sep then [""] + rest
      else [[s[0]] + rest[0]] + rest[1..]
  }

  /** `parts.join(sep)`: begins with the first piece. */
  function Join(parts: seq<string>, sep: char): (r: string)
    ensures |parts| > 0 ==> parts[0] <= r
  {
    if |parts| == 0 then ""
    else if |parts| == 1 then parts[0]
    else parts[0] + [sep] + Join(parts[1..], sep)
  }

  /** A join ends with its last piece. */
  lemma {:induction false} JoinEndsWithLast(parts: seq<string>, sep: char)
    requires |parts| > 0
    ensures var r := Join(parts, sep); var l := parts[|parts| - 1];
      |l| <= |r| && r[|r| - |l|..] == l
    decreases |parts|
  {
    if |parts| > 1 {
      JoinEndsWithLast(parts[1..], sep);
      assert parts[1..][|parts| - 2] == parts[|parts| - 1];
    }
  }

  function Last<T>(xs: seq<T>): T
    requires |xs| > 0
  {
    xs[|xs| - 1]
  }

  /** Joining the pieces of a split gives back the original string. */
  lemma {:induction false} JoinSplit(s: string, sep: char)
    ensures Join(Split(s, sep), sep) == s
    decreases |s|
  {
    if |s| > 0 {
      var rest := Split(s[1..], sep);
      JoinSplit(s[1..], sep);
      if s[0] == sep {
        assert Split(s, sep) == [""] + rest;
        assert ([""] + rest)[1..] == rest;
        assert s == [sep] + s[1..];
      } else {
        var parts := Split(s, sep);
        assert parts == [[s[0]] + rest[0]] + rest[1..];
        if |rest| == 1 {
          assert s == [s[0]] + s[1..];
        } else {
          assert parts[1..] == rest[1..];
          assert Join(rest, sep) == rest[0] + [sep] + Join(rest[1..], sep);
          assert s == [s[0]] + s[1..];
        }
      }
    }
  }

  /** A string without the separator splits into itself alone. */
  lemma {:induction false} SplitNoSeparator(s: string, sep: char)
    requires sep !in s
    ensures Split(s, sep) == [s]
    decreases |s|
  {
    if |s| > 0 {
      assert sep !in s[1..] by {
        forall i | 0 <= i < |s[1..]| ensures s[1..][i] != sep {
          assert s[1..][i] == s[i + 1];
        }
      }
      SplitNoSeparator(s[1..], sep);
      assert s == [s[0]] + s[1..];
    }
  }

  /** A separator-free head followed by the separator becomes the first piece. */
  lemma {:induction false} SplitAfterSeparator(p: string, t: string, sep: char)
    requires sep !in p
    ensures Split(p + [sep] + t, sep) == [p] + Split(t, sep)
    decreases |p|
  {
    if |p| == 0 {
      assert p + [sep] + t == [sep] + t;
      assert ([sep] + t)[1..] == t;
    } else {
      var s := p + [sep] + t;
      assert s[0] == p[0];
      assert s[1..] == p[1..] + [sep] + t;
      assert sep !in p[1..] by {
        forall i | 0 <= i < |p[1..]| ensures p[1..][i] != sep {
          assert p[1..][i] == p[i + 1];
        }
      }
      SplitAfterSeparator(p[1..], t, sep);
      var rest := Split(s[1..], sep);
      assert rest == [p[1..]] + Split(t, sep);
      assert [p[0]] + p[1..] == p;
    }
  }

  /** Splitting a join of separator-free pieces gives back the pieces. */
  lemma {:induction false} SplitJoin(parts: seq<string>, sep: char)
    requires |parts| >= 1
    requires forall i :: 0 <= i < |parts| ==> sep !in parts[i]
    ensures Split(Join(parts, sep), sep) == parts
    decreases |parts|
  {
    if |parts| == 1 {
      SplitNoSeparator(parts[0], sep);
    } else {
      SplitJoin(parts[1..], sep);
      SplitAfterSeparator(parts[0], Join(parts[1..], sep), sep);
      assert [parts[0]] + parts[1..] == parts;
    }
  }

  /** The first `k` pieces joined, then a separator, start the whole join followed by a separator. */
  lemma {:induction false} JoinPrefix(parts: seq<string>, sep: char, k: nat)
    requires 1 <= k <= |parts|
    ensures Join(parts[..k], sep) + [sep] <= Join(parts, sep) + [sep]
    decreases k
  {
    if k == 1 {
      assert Join(parts[..1], sep) == parts[0];
      if |parts| > 1 {
        assert Join(parts, sep) + [sep] == parts[0] + [sep] + (Join(parts[1..], sep) + [sep]);
      }
    } else {
      var tail := parts[1..];
      JoinPrefix(tail, sep, k - 1);
      assert parts[..k][1..] == tail[..k - 1];
      var a := Join(tail[..k - 1], sep) + [sep];
      var b := Join(tail, sep) + [sep];
      assert Join(parts[..k], sep) + [sep] == parts[0] + [sep] + a;
      assert Join(parts, sep) + [sep] == parts[0] + [sep] + b;
      assert a == b[..|a|];
      assert (parts[0] + [sep] + a) == (parts[0] + [sep] + b)[..|parts[0] + [sep] + a|];
    }
  }

  /**
   * `r` is the text after the last `sep` of `s`: a suffix of `s` holding no
   * `sep`, which is either all of `s` or preceded by a `sep`.
   */
  ghost predicate IsLastSegment(s: string, sep: char, r: string)
  {
    && |r| <= |s|
    && s[|s| - |r|..] == r
    && sep !in r
    && (|r| == |s| || s[|s| - |r| - 1] == sep)
  }

  /** A candidate shorter than a last segment cannot be preceded by a separator. */
  lemma LastSegmentLengthBound(s: string, sep: char, r1: string, r2: string)
    requires IsLastSegment(s, sep, r1) && IsLastSegment(s, sep, r2)
    ensures |r1| <= |r2|
  {
    if |r2| < |s| {
      var p := |s| - |r2| - 1;
      assert s[p] == sep;
      assert forall j :: |s| - |r1| <= j < |s| ==> s[j] == r1[j - (|s| - |r1|)];
    }
  }

  /** At most one string is the last segment of `s`. */
  lemma LastSegmentUnique(s: string, sep: char, r1: string, r2: string)
    requires IsLastSegment(s, sep, r1) && IsLastSegment(s, sep, r2)
    ensures r1 == r2
  {
    LastSegmentLengthBound(s, sep, r1, r2);
    LastSegmentLengthBound(s, sep, r2, r1);
  }

  /** A split into several pieces means the separator occurs. */
  lemma {:induction false} SeparatorOfSeveralPieces(t: string, sep: char)
    requires |Split(t, sep)| > 1
    ensures sep in t
    decreases |t|
  {
    if t[0] != sep {
      SeparatorOfSeveralPieces(t[1..], sep);
    }
  }

  /** A last segment shorter than the string stays the last segment when a character is put in front. */
  lemma ConsLastSegment(c: char, t: string, sep: char, r: string)
    requires IsLastSegment(t, sep, r)
    requires |r| < |t| || c == sep
    ensures IsLastSegment([c] + t, sep, r)
  {
    var s := [c] + t;
    assert s[|s| - |r|..] == t[|t| - |r|..];
    if |r| < |t| {
      assert s[|s| - |r| - 1] == t[|t| - |r| - 1];
    }
  }

  /** The last segment is shorter than a string that holds the separator. */
  lemma LastSegmentShorter(t: string, sep: char, r: string)
    requires IsLastSegment(t, sep, r) && sep in t
    ensures |r| < |t|
  {
    assert t[|t| - |r|..] == r;
  }

  /** The last piece of a split is the text after the last separator. */
  lemma {:induction false} LastOfSplit(s: string, sep: char)
    ensures IsLastSegment(s, sep, Last(Split(s, sep)))
    decreases |s|
  {
    if |s| > 0 {
      var t := s[1..];
      var rest := Split(t, sep);
      LastOfSplit(t, sep);
      var r := Last(rest);
      assert s == [s[0]] + t;
      if s[0] == sep {
        assert Last(Split(s, sep)) == r;
        ConsLastSegment(s[0], t, sep, r);
      } else if |rest| == 1 {
        JoinSplit(t, sep);
        assert Last(Split(s, sep)) == [s[0]] + t;
      } else {
        assert Last(Split(s, sep)) == r;
        SeparatorOfSeveralPieces(t, sep);
        LastSegmentShorter(t, sep, r);
        ConsLastSegment(s[0], t, sep, r);
      }
    }
  }

  /** `s.split(sep).pop()`: never undefined, since a split is never empty. */
  function LastSegment(s: string, sep: char): (r: string)
    ensures IsLastSegment(s, sep, r)
  {
    LastOfSplit(s, sep);
    Last(Split(s, sep))
  }

  /** Without a separator the last segment is the whole string. */
  lemma LastSegmentNoSeparator(s: string, sep: char)
    requires sep !in s
    ensures LastSegment(s, sep) == s
  {
    LastSegmentUnique(s, sep, LastSegment(s, sep), s);
  }

  /** Whatever precedes a final separator does not affect the last segment. */
  lemma LastSegmentAfter(t: string, u: string, sep: char)
    requires sep !in u
    ensures LastSegment(t + [sep] + u, sep) == u
  {
    var s := t + [sep] + u;
    assert s[|s| - |u|..] == u;
    if |u| < |s| {
      assert s[|s| - |u| - 1] == sep;
    }
    LastSegmentUnique(s, sep, LastSegment(s, sep), u);
  }

  /** `s.includes(t)`: `t` occurs in `s` at some position. */
  predicate Includes(s: string, t: string)
    ensures t <= s ==> Includes(s, t)
    ensures Includes(s, t) ==> |t| <= |s|
    decreases |s|
  {
    t <= s || (|s| > 0 && Includes(s[1..], t))
  }

  ghost predicate OccursAt(s: string, t: string, i: int)
  {
    0 <= i && i + |t| <= |s| && s[i..i + |t|] == t
  }

  /** An occurrence at index `i` makes `Includes` true. */
  lemma {:induction false} IncludesFromOccurrence(s: string, t: string, i: int)
    requires OccursAt(s, t, i)
    ensures Includes(s, t)
    decreases i
  {
    if i == 0 {
      assert s[..|t|] == t;
    } else {
      assert s[1..][i - 1..i - 1 + |t|] == s[i..i + |t|];
      IncludesFromOccurrence(s[1..], t, i - 1);
    }
  }

  /** `Includes` is witnessed by an occurrence. */
  lemma {:induction false} OccurrenceFromIncludes(s: string, t: string) returns (i: int)
    requires Includes(s, t)
    ensures OccursAt(s, t, i)
    decreases |s|
  {
    if t <= s {
      i := 0;
      assert s[..|t|] == t;
    } else {
      var j := OccurrenceFromIncludes(s[1..], t);
      assert s[1..][j..j + |t|] == s[j + 1..j + 1 + |t|];
      i := j + 1;
    }
  }

  /** `Includes` holds exactly when `t` occurs at some index of `s`. */
  lemma IncludesIff(s: string, t: string)
    ensures Includes(s, t) <==> exists i :: OccursAt(s, t, i)
  {
    if Includes(s, t) {
      var i := OccurrenceFromIncludes(s, t);
    }
    forall i | OccursAt(s, t, i) ensures Includes(s, t) {
      IncludesFromOccurrence(s, t, i);
    }
  }

  /** Every string includes the empty string. */
  lemma IncludesEmpty(s: string)
    ensures Includes(s, "")
  {
  }

  /** `toLowerCase` on one character; letters outside A..Z are left alone. */
  function ToLowerChar(c: char): (d: char)
    ensures 'A' <= c <= 'Z' ==> 'a' <= d <= 'z' && d as int - 'a' as int == c as int - 'A' as int
    ensures !('A' <= c <= 'Z') ==> d == c
  {
    if 'A' <= c <= 'Z' then (c as int + ('a' as int - 'A' as int)) as char else c
  }

  function ToLower(s: string): (r: string)
    ensures |r| == |s|
    ensures forall i :: 0 <= i < |s| ==> r[i] == ToLowerChar(s[i])
  {
    seq(|s|, i requires 0 <= i < |s| => ToLowerChar(s[i]))
  }

  predicate IsDigit(c: char)
  {
    '0' <= c <= '9'
  }

  function DigitChar(d: nat): (c: char)
    requires d < 10
    ensures IsDigit(c)
  {
    ('0' as int + d) as char
  }

  function DigitValue(c: char): (d: nat)
    requires IsDigit(c)
    ensures d < 10 && DigitChar(d) == c
  {
    c as int - '0' as int
  }

  /** `n.toString()` for a non-negative integer: its decimal digits, no leading zero. */
  function NatToDecimal(n: nat): (s: string)
    ensures |s| >= 1
    ensures forall i :: 0 <= i < |s| ==> IsDigit(s[i])
    ensures |s| > 1 ==> s[0] != '0'
    decreases n
  {
    if n < 10 then [DigitChar(n)] else NatToDecimal(n / 10) + [DigitChar(n % 10)]
  }

  /** The value of a string of decimal digits. */
  function DecimalValue(s: string): nat
    requires forall i :: 0 <= i < |s| ==> IsDigit(s[i])
  {
    if |s| == 0 then 0 else DecimalValue(s[..|s| - 1]) * 10 + DigitValue(s[|s| - 1])
  }

  /** Reading back the decimal digits of `n` gives `n`. */
  lemma {:induction false} DecimalRoundTrip(n: nat)
    ensures DecimalValue(NatToDecimal(n)) == n
    decreases n
  {
    var s := NatToDecimal(n);
    if n < 10 {
      assert s[..0] == [];
    } else {
      DecimalRoundTrip(n / 10);
      assert s[..|s| - 1] == NatToDecimal(n / 10);
    }
  }
}
