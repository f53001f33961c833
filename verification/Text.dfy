/** Text helpers of the Go standard library that the sinks and the digest rely on:
    decimal printing, joining and splitting. */
module Text {

  datatype Option<+T> = None | Some(value: T)

  /** What a map says of a key. */
  function At<K, V>(m: map<K, V>, k: K): Option<V> {
    if k in m then Some(m[k]) else None
  }

  lemma {:induction false} ConcatAssociative(a: string, b: string, c: string)
    ensures a + b + c == a + (b + c)
  {
  }

  // ----- strconv.Itoa and the %d verb -----

  function Digit(d: nat): char
    requires d < 10
  {
    ('0' as int + d) as char
  }

  function ItoaNat(n: nat): string {
    if n < 10 then [Digit(n)] else ItoaNat(n / 10) + [Digit(n % 10)]
  }

  function Itoa(n: int): string {
    if n < 0 then "-" + ItoaNat(-n) else ItoaNat(n)
  }

  /** The number a digit string denotes, most significant digit first. */
  ghost function Value(s: string): int {
    if s == "" then 0 else 10 * Value(s[..|s| - 1]) + (s[|s| - 1] as int - '0' as int)
  }

  lemma {:induction false} ItoaNatHasValue(n: nat)
    ensures Value(ItoaNat(n)) == n
    ensures ItoaNat(n) != "" && forall i | 0 <= i < |ItoaNat(n)| :: '0' <= ItoaNat(n)[i] <= '9'
  {
    if n < 10 {
      assert [Digit(n)][..0] == "";
    } else {
      ItoaNatHasValue(n / 10);
      assert ItoaNat(n)[..|ItoaNat(n)| - 1] == ItoaNat(n / 10);
    }
  }

  lemma {:induction false} ItoaInjective(m: int, n: int)
    requires Itoa(m) == Itoa(n)
    ensures m == n
  {
    ItoaNatHasValue(if m < 0 then -m else m);
    ItoaNatHasValue(if n < 0 then -n else n);
    assert (Itoa(m)[0] == '-' <==> m < 0) && (Itoa(n)[0] == '-' <==> n < 0);
    if m < 0 {
      assert Itoa(m)[1..] == ItoaNat(-m) && Itoa(n)[1..] == ItoaNat(-n);
    }
  }

  /** Itoa prints decimal digits, after a minus sign if the number is negative. */
  lemma {:induction false} ItoaReads(n: int)
    ensures n >= 0 ==> Value(Itoa(n)) == n
    ensures Itoa(n) != ""
    ensures n < 0 ==> Itoa(n)[0] == '-' && Value(Itoa(n)[1..]) == -n
  {
    ItoaNatHasValue(if n < 0 then -n else n);
    if n < 0 {
      assert Itoa(n)[1..] == ItoaNat(-n);
    }
  }

  // ----- strings.Join and its inverse -----

  function Join(xs: seq<string>, sep: string): string {
    if xs == [] then "" else if |xs| == 1 then xs[0] else xs[0] + sep + Join(xs[1..], sep)
  }

  function Split(s: string, c: char): (pieces: seq<string>)
    ensures pieces != []
  {
    if s == "" then [""]
    else
      var rest := Split(s[1..], c);
      if s[0] == c then [""] + rest else [[s[0]] + rest[0]] + rest[1..]
  }

  ghost function Occurrences(s: string, c: char): nat {
    if s == "" then 0 else (if s[0] == c then 1 else 0) + Occurrences(s[1..], c)
  }

  ghost function TotalOccurrences(xs: seq<string>, c: char): nat {
    if xs == [] then 0 else Occurrences(xs[0], c) + TotalOccurrences(xs[1..], c)
  }

  lemma {:induction false} SplitAtSeparator(x: string, c: char, rest: string)
    requires c !in x
    ensures Split(x + [c] + rest, c) == [x] + Split(rest, c)
    ensures Split(x, c) == [x]
  {
    if x != "" {
      assert x[0] in x && x == [x[0]] + x[1..];
      assert (x + [c] + rest)[1..] == x[1..] + [c] + rest;
      SplitAtSeparator(x[1..], c, rest);
    } else {
      assert x + [c] + rest == [c] + rest;
      assert ([c] + rest)[1..] == rest;
    }
  }

  lemma {:induction false} SplitJoin(xs: seq<string>, c: char)
    requires xs != [] && forall x | x in xs :: c !in x
    ensures Split(Join(xs, [c]), c) == xs
  {
    assert xs[0] in xs;
    if |xs| == 1 {
      SplitAtSeparator(xs[0], c, "");
    } else {
      SplitJoin(xs[1..], c);
      SplitAtSeparator(xs[0], c, Join(xs[1..], [c]));
    }
  }

  lemma {:induction false} SplitLength(s: string, c: char)
    ensures |Split(s, c)| == Occurrences(s, c) + 1
  {
    if s != "" {
      SplitLength(s[1..], c);
    }
  }

  lemma {:induction false} OccurrencesConcat(a: string, b: string, c: char)
    ensures Occurrences(a + b, c) == Occurrences(a, c) + Occurrences(b, c)
  {
    if a == "" {
      assert a + b == b;
    } else {
      assert (a + b)[1..] == a[1..] + b;
      OccurrencesConcat(a[1..], b, c);
    }
  }

  lemma {:induction false} OccurrencesInJoin(xs: seq<string>, c: char)
    requires xs != []
    ensures Occurrences(Join(xs, [c]), c) == |xs| - 1 + TotalOccurrences(xs, c)
  {
    if |xs| == 1 {
      assert TotalOccurrences(xs[1..], c) == 0;
    } else {
      OccurrencesInJoin(xs[1..], c);
      OccurrencesConcat(xs[0] + [c], Join(xs[1..], [c]), c);
      OccurrencesConcat(xs[0], [c], c);
      assert Occurrences([c], c) == 1 by { assert [c][1..] == ""; }
    }
  }

  lemma {:induction false} NoOccurrences(s: string, c: char)
    ensures Occurrences(s, c) == 0 <==> c !in s
  {
    if s != "" {
      NoOccurrences(s[1..], c);
      assert s == [s[0]] + s[1..];
    }
  }

  lemma {:induction false} NoTotalOccurrences(xs: seq<string>, c: char)
    ensures TotalOccurrences(xs, c) == 0 <==> forall x | x in xs :: c !in x
  {
    if xs != [] {
      NoOccurrences(xs[0], c);
      NoTotalOccurrences(xs[1..], c);
      assert xs == [xs[0]] + xs[1..];
    }
  }

  /** A joined list splits back to itself exactly when it is not empty and no element
      contains the separator. */
  lemma {:induction false} SplitInvertsJoinExactly(xs: seq<string>, c: char)
    ensures Split(Join(xs, [c]), c) == xs <==> xs != [] && forall x | x in xs :: c !in x
  {
    if xs != [] {
      SplitLength(Join(xs, [c]), c);
      OccurrencesInJoin(xs, c);
      NoTotalOccurrences(xs, c);
      if TotalOccurrences(xs, c) == 0 {
        SplitJoin(xs, c);
      }
    }
  }
}
