/** Shared vocabulary: optional values, results that may be a Rust panic, and the
    string and sequence helpers the Rust standard library provides to the analyses
    (`join`, `split`, `contains`, `trim_end_matches`, decimal formatting). */
module Common {

  datatype Option<T> = None | Some(value: T)

  /** What a Rust call ends with: a value, or a panic (`unwrap` on `None`,
      `expect`, `todo!`, `unreachable!`, an index out of bounds). */
  datatype Result<T> = Ok(value: T) | Panic(reason: string)
  {
    predicate IsFailure() { Panic? }

    function PropagateFailure<U>(): Result<U>
      requires Panic?
    {
      Panic(reason)
    }

    function Extract(): T
      requires Ok?
    {
      value
    }
  }

  // ---------------------------------------------------------------------------
  // Sequences

  /** No element occurs twice. */
  ghost predicate NoDup<T>(s: seq<T>)
  {
    forall i, j :: 0 <= i < j < |s| ==> s[i] != s[j]
  }

  /** The elements of `s` that `keep` accepts, in their order (`Iterator::filter`). */
  function Filter<T(!new)>(s: seq<T>, keep: T -> bool): (r: seq<T>)
    ensures |r| <= |s|
    ensures forall x :: x in r <==> x in s && keep(x)
  {
    if s == [] then [] else (if keep(s[0]) then [s[0]] else []) + Filter(s[1..], keep)
  }

  /** Filtering distributes over concatenation. */
  lemma {:induction false} FilterAppend<T(!new)>(a: seq<T>, b: seq<T>, keep: T -> bool)
    ensures Filter(a + b, keep) == Filter(a, keep) + Filter(b, keep)
  {
    if a == [] {
      assert a + b == b;
    } else {
      assert (a + b)[0] == a[0];
      assert (a + b)[1..] == a[1..] + b;
      FilterAppend(a[1..], b, keep);
    }
  }

  /** Filtering a sequence with a first element. */
  lemma FilterCons<T(!new)>(x: T, s: seq<T>, keep: T -> bool)
    ensures Filter([x] + s, keep) == (if keep(x) then [x] else []) + Filter(s, keep)
  {
    assert ([x] + s)[1..] == s;
  }

  /** Putting the same element in front of two sequences keeps an equation between
      what is kept of them. */
  lemma FilterConsShift<T(!new)>(x: T, s: seq<T>, t: seq<T>, tail: seq<T>, keep: T -> bool)
    requires Filter(s, keep) == Filter(t, keep) + tail
    ensures Filter([x] + s, keep) == Filter([x] + t, keep) + tail
  {
    FilterCons(x, s, keep);
    FilterCons(x, t, keep);
    AppendAssoc(if keep(x) then [x] else [], Filter(t, keep), tail);
  }

  /** Nothing is kept from a sequence none of whose elements is accepted. */
  lemma {:induction false} FilterNone<T(!new)>(s: seq<T>, keep: T -> bool)
    requires forall i :: 0 <= i < |s| ==> !keep(s[i])
    ensures Filter(s, keep) == []
  {
    if s != [] {
      FilterNone(s[1..], keep);
    }
  }

  /** `s` with every element after its first occurrence dropped, order kept. */
  function Dedup<T(==,!new)>(s: seq<T>): (r: seq<T>)
    ensures forall x :: x in r <==> x in s
    ensures NoDup(r)
    ensures |r| <= |s|
  {
    if s == [] then []
    else
      var prev := Dedup(s[..|s| - 1]);
      assert forall x :: x in s <==> x in s[..|s| - 1] || x == s[|s| - 1];
      if s[|s| - 1] in prev then prev else prev + [s[|s| - 1]]
  }

  /** Rust's `if !v.contains(&x) { v.push(x) }`. */
  function PushUnique<T(==,!new)>(s: seq<T>, x: T): (r: seq<T>)
    ensures x in r
    ensures forall y :: y in r <==> y in s || y == x
    ensures NoDup(s) ==> NoDup(r)
    ensures x in s ==> r == s
    ensures x !in s ==> r == s + [x]
  {
    if x in s then s else s + [x]
  }

  /** Concatenation regrouped, for proofs that append in steps. */
  lemma AppendAssoc<T>(a: seq<T>, b: seq<T>, c: seq<T>)
    ensures a + b + c == a + (b + c)
  {
  }

  /** Appending one element to the input of Dedup. */
  lemma DedupSnoc<T(!new)>(s: seq<T>, x: T)
    ensures Dedup(s + [x]) == if x in s then Dedup(s) else Dedup(s) + [x]
  {
    assert (s + [x])[..|s + [x]| - 1] == s;
  }

  // ---------------------------------------------------------------------------
  // Strings

  /** Rust's `parts.join(sep)`. */
  function Join(parts: seq<string>, sep: string): string
  {
    if |parts| == 0 then ""
    else if |parts| == 1 then parts[0]
    else parts[0] + sep + Join(parts[1..], sep)
  }

  /** Joining one more part onto a non-empty list puts exactly one separator before it. */
  lemma {:induction false} JoinSnoc(parts: seq<string>, last: string, sep: string)
    requires |parts| > 0
    ensures Join(parts + [last], sep) == Join(parts, sep) + sep + last
  {
    if |parts| == 1 {
      assert parts + [last] == [parts[0], last];
      assert [parts[0], last][1..] == [last];
    } else {
      assert (parts + [last])[1..] == parts[1..] + [last];
      JoinSnoc(parts[1..], last, sep);
    }
  }

  /** A character absent from every part and from the separator is absent from the join. */
  lemma {:induction false} JoinAvoids(parts: seq<string>, sep: string, c: char)
    requires c !in sep
    requires forall p :: p in parts ==> c !in p
    ensures c !in Join(parts, sep)
  {
    if |parts| > 1 {
      assert forall p :: p in parts[1..] ==> p in parts;
      JoinAvoids(parts[1..], sep, c);
    }
  }

  /** `sub` occurs in `s` starting at index `i`. */
  ghost predicate OccursAt(s: string, sub: string, i: int)
  {
    0 <= i && i + |sub| <= |s| && s[i..i + |sub|] == sub
  }

  /** Rust's `s.contains(sub)`. */
  predicate Contains(s: string, sub: string)
    decreases |s|
  {
    |sub| <= |s| && (s[..|sub|] == sub || Contains(s[1..], sub))
  }

  /** Contains agrees with the existence of an occurrence. */
  lemma {:induction false} ContainsIsOccurrence(s: string, sub: string)
    ensures Contains(s, sub) <==> exists i :: OccursAt(s, sub, i)
    decreases |s|
  {
    if |sub| <= |s| && s[..|sub|] == sub {
      assert OccursAt(s, sub, 0);
    } else if |sub| <= |s| {
      ContainsIsOccurrence(s[1..], sub);
      if Contains(s[1..], sub) {
        var i :| OccursAt(s[1..], sub, i);
        assert s[i + 1..i + 1 + |sub|] == s[1..][i..i + |sub|];
        assert OccursAt(s, sub, i + 1);
      }
      forall i | OccursAt(s, sub, i)
        ensures Contains(s, sub)
      {
        if i > 0 {
          assert s[1..][i - 1..i - 1 + |sub|] == s[i..i + |sub|];
          assert OccursAt(s[1..], sub, i - 1);
        }
      }
    }
  }

  /** Rust's `s.starts_with(p)`. */
  predicate StartsWith(s: string, p: string)
  {
    |p| <= |s| && s[..|p|] == p
  }

  /** Rust's `s.split(sep)`: the pieces between the leftmost non-overlapping
      occurrences of `sep`; there is always at least one piece. */
  function Split(s: string, sep: string): (r: seq<string>)
    requires |sep| > 0
    ensures |r| >= 1
    decreases |s|
  {
    if |s| < |sep| then [s]
    else if s[..|sep|] == sep then [""] + Split(s[|sep|..], sep)
    else
      var rest := Split(s[1..], sep);
      [[s[0]] + rest[0]] + rest[1..]
  }

  /** Splitting and joining again with the same separator gives back the input. */
  lemma {:induction false} JoinSplit(s: string, sep: string)
    requires |sep| > 0
    ensures Join(Split(s, sep), sep) == s
    decreases |s|
  {
    if |s| < |sep| {
    } else if s[..|sep|] == sep {
      JoinSplit(s[|sep|..], sep);
      JoinSplitAtSep(s, sep);
    } else {
      JoinSplit(s[1..], sep);
      JoinSplitOther(s, sep);
    }
  }

  /** The last piece of a split is a suffix of the input. */
  lemma {:induction false} SplitLastSuffix(s: string, sep: string)
    requires |sep| > 0
    ensures var ps := Split(s, sep); var last := ps[|ps| - 1];
      |last| <= |s| && s[|s| - |last|..] == last
    decreases |s|
  {
    var ps := Split(s, sep);
    if |s| < |sep| {
      assert ps == [s];
    } else if s[..|sep|] == sep {
      var t := s[|sep|..];
      SplitLastSuffix(t, sep);
      SplitAtSep(s, sep);
      var qs := Split(t, sep);
      assert ps[|ps| - 1] == qs[|qs| - 1];
      var last := qs[|qs| - 1];
      assert s[|s| - |last|..] == t[|t| - |last|..];
    } else {
      var t := s[1..];
      var rest := Split(t, sep);
      assert ps == [[s[0]] + rest[0]] + rest[1..];
      SplitLastSuffix(t, sep);
      if |rest| == 1 {
        JoinSplit(t, sep);
        assert rest[0] == t;
        assert ps[|ps| - 1] == [s[0]] + t == s;
      } else {
        assert ps[|ps| - 1] == rest[|rest| - 1];
        var last := rest[|rest| - 1];
        assert s[|s| - |last|..] == t[|t| - |last|..];
      }
    }
  }

  lemma JoinSplitAtSep(s: string, sep: string)
    requires |sep| > 0 && |s| >= |sep| && s[..|sep|] == sep
    requires Join(Split(s[|sep|..], sep), sep) == s[|sep|..]
    ensures Join(Split(s, sep), sep) == s
  {
    var t := s[|sep|..];
    SplitAtSep(s, sep);
    JoinConsEmpty(Split(t, sep), sep);
    assert s == s[..|sep|] + t;
  }

  lemma SplitAtSep(s: string, sep: string)
    requires |sep| > 0 && |s| >= |sep| && s[..|sep|] == sep
    ensures Split(s, sep) == [""] + Split(s[|sep|..], sep)
  {
  }

  lemma JoinConsEmpty(rest: seq<string>, sep: string)
    requires |rest| >= 1
    ensures Join([""] + rest, sep) == sep + Join(rest, sep)
  {
    assert ([""] + rest)[1..] == rest;
  }

  lemma JoinSplitOther(s: string, sep: string)
    requires |sep| > 0 && |s| >= |sep| && s[..|sep|] != sep
    requires Join(Split(s[1..], sep), sep) == s[1..]
    ensures Join(Split(s, sep), sep) == s
  {
    var rest := Split(s[1..], sep);
    JoinConsHead(s[0], rest, sep);
    assert s == [s[0]] + s[1..];
  }

  /** Prefixing the first part with a character prefixes the joined string with it. */
  lemma JoinConsHead(c: char, rest: seq<string>, sep: string)
    requires |rest| >= 1
    ensures Join([[c] + rest[0]] + rest[1..], sep) == [c] + Join(rest, sep)
  {
    var r := [[c] + rest[0]] + rest[1..];
    if |rest| > 1 {
      assert r[1..] == rest[1..];
    }
  }

  /** Rust's `s.trim_end_matches(c)` for one character. */
  function TrimEndMatches(s: string, c: char): (r: string)
    ensures |r| <= |s| && r == s[..|r|]
    ensures |r| > 0 ==> r[|r| - 1] != c
    ensures forall i :: |r| <= i < |s| ==> s[i] == c
  {
    if |s| > 0 && s[|s| - 1] == c then TrimEndMatches(s[..|s| - 1], c) else s
  }

  /** Rust's `s.replace(c, d)` for single characters. */
  function ReplaceChar(s: string, c: char, d: char): (r: string)
    ensures |r| == |s|
    ensures forall i :: 0 <= i < |s| ==> r[i] == if s[i] == c then d else s[i]
  {
    if s == [] then [] else [if s[0] == c then d else s[0]] + ReplaceChar(s[1..], c, d)
  }

  /** Rust's `s.replace(from, to)`: every leftmost non-overlapping occurrence is replaced. */
  function ReplaceAll(s: string, from: string, to: string): string
    requires |from| > 0
    decreases |s|
  {
    if |s| < |from| then s
    else if s[..|from|] == from then to + ReplaceAll(s[|from|..], from, to)
    else [s[0]] + ReplaceAll(s[1..], from, to)
  }

  /** A string in which `from` never occurs is left as it is by ReplaceAll. */
  lemma {:induction false} ReplaceAllAbsent(s: string, from: string, to: string)
    requires |from| > 0
    requires !Contains(s, from)
    ensures ReplaceAll(s, from, to) == s
    decreases |s|
  {
    if |s| >= |from| {
      ReplaceAllAbsent(s[1..], from, to);
      assert s == [s[0]] + s[1..];
    }
  }

  // ---------------------------------------------------------------------------
  // White space

  /** The Unicode `White_Space` property: Rust's `char::is_whitespace`, and what `\s`
      matches in the `regex` crate's default Unicode mode. */
  predicate IsWhitespace(c: char)
  {
    ('\U{0009}' <= c <= '\U{000D}') || c == '\U{0020}' || c == '\U{0085}' || c == '\U{00A0}'
    || c == '\U{1680}' || ('\U{2000}' <= c <= '\U{200A}') || c == '\U{2028}' || c == '\U{2029}'
    || c == '\U{202F}' || c == '\U{205F}' || c == '\U{3000}'
  }

  // ---------------------------------------------------------------------------
  // Decimal numbers, as `format!("{}", n)` writes them

  function DigitChar(d: nat): (c: char)
    requires d < 10
    ensures '0' <= c <= '9'
  {
    ('0' as int + d) as char
  }

  predicate IsDigit(c: char)
  {
    '0' <= c <= '9'
  }

  function DigitValue(c: char): (d: nat)
    requires IsDigit(c)
    ensures d < 10
  {
    (c as int - '0' as int) as nat
  }

  /** The decimal digits of `n`, without leading zeros. */
  function NatToString(n: nat): (r: string)
    ensures |r| >= 1
    ensures forall i :: 0 <= i < |r| ==> IsDigit(r[i])
    ensures |r| > 1 ==> r[0] != '0'
  {
    if n < 10 then [DigitChar(n)] else NatToString(n / 10) + [DigitChar(n % 10)]
  }

  predicate AllDigits(s: string)
  {
    forall i :: 0 <= i < |s| ==> IsDigit(s[i])
  }

  /** The value of a non-empty run of decimal digits (leading zeros allowed). */
  function DigitsValue(s: string): nat
    requires AllDigits(s)
  {
    if s == [] then 0 else 10 * DigitsValue(s[..|s| - 1]) + DigitValue(s[|s| - 1])
  }

  /** Reading back what NatToString wrote gives the number. */
  lemma {:induction false} NatToStringRoundTrip(n: nat)
    ensures DigitsValue(NatToString(n)) == n
  {
    var r := NatToString(n);
    if n < 10 {
      assert DigitValue(DigitChar(n)) == n;
    } else {
      NatToStringRoundTrip(n / 10);
      assert r[..|r| - 1] == NatToString(n / 10);
      assert DigitValue(DigitChar(n % 10)) == n % 10;
    }
  }

  /** Decimal rendering is injective. */
  lemma NatToStringInjective(m: nat, n: nat)
    requires NatToString(m) == NatToString(n)
    ensures m == n
  {
    NatToStringRoundTrip(m);
    NatToStringRoundTrip(n);
  }

  /** A signed integer as `format!("{}", x)` writes it. */
  function IntToString(x: int): (r: string)
    ensures |r| >= 1
    ensures r[0] == '-' <==> x < 0
  {
    if x < 0 then "-" + NatToString(-x) else NatToString(x)
  }

  /** Signed decimal rendering is injective. */
  lemma IntToStringInjective(x: int, y: int)
    requires IntToString(x) == IntToString(y)
    ensures x == y
  {
    if x < 0 {
      assert IntToString(y)[0] == '-';
      NegativeInjective(x, y);
    } else {
      assert IntToString(y)[0] != '-';
      NatToStringInjective(x, y);
    }
  }

  lemma NegativeInjective(x: int, y: int)
    requires x < 0 && y < 0 && IntToString(x) == IntToString(y)
    ensures x == y
  {
    var a, b := NatToString(-x), NatToString(-y);
    assert "-" + a == "-" + b;
    SignDropped(a, b);
    NatToStringInjective(-x, -y);
  }

  lemma SignDropped(a: string, b: string)
    requires "-" + a == "-" + b
    ensures a == b
  {
    assert a == ("-" + a)[1..];
  }
}
