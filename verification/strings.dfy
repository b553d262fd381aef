/**
 * String helpers the core relies on: the lexicographic order in which `std::set<std::string>`
 * and `std::map<std::string, _>` iterate, and splitting a configuration key on a separator.
 */
module Strings {
  import opened Wrappers

  /** `a` sorts strictly before `b`: a proper prefix, or smaller at the first difference. */
  predicate Below(a: string, b: string)
  {
    if a == [] then b != []
    else if b == [] then false
    else if a[0] == b[0] then Below(a[1..], b[1..])
    else a[0] < b[0]
  }

  lemma {:induction false} BelowIrreflexive(a: string)
    ensures !Below(a, a)
  {
    if a != [] {
      BelowIrreflexive(a[1..]);
    }
  }

  lemma {:induction false} BelowTransitive(a: string, b: string, c: string)
    requires Below(a, b) && Below(b, c)
    ensures Below(a, c)
  {
    if a != [] && b != [] && c != [] && a[0] == b[0] && b[0] == c[0] {
      BelowTransitive(a[1..], b[1..], c[1..]);
    }
  }

  lemma {:induction false} BelowTotal(a: string, b: string)
    requires a != b
    ensures Below(a, b) || Below(b, a)
  {
    if a != [] && b != [] && a[0] == b[0] {
      assert a[1..] != b[1..] by {
        assert a == [a[0]] + a[1..] && b == [b[0]] + b[1..];
      }
      BelowTotal(a[1..], b[1..]);
    }
  }

  /** `m` is the least element of `s`. */
  predicate IsLeast(m: string, s: set<string>)
  {
    m in s && forall x :: x in s && x != m ==> Below(m, x)
  }

  /** Every non-empty finite set of strings has a least element. */
  lemma {:induction false} LeastExists(s: set<string>)
    requires s != {}
    ensures exists m :: IsLeast(m, s)
    decreases |s|
  {
    var x :| x in s;
    if s != {x} {
      LeastExists(s - {x});
      var r :| IsLeast(r, s - {x});
      if Below(x, r) {
        forall y | y in s && y != x ensures Below(x, y) {
          if y != r {
            BelowTransitive(x, r, y);
          }
        }
        assert IsLeast(x, s);
      } else {
        BelowTotal(x, r);
        assert IsLeast(r, s);
      }
    } else {
      assert IsLeast(x, s);
    }
  }

  /** The first element of `s` in iteration order. */
  ghost function Least(s: set<string>): (m: string)
    requires s != {}
    ensures IsLeast(m, s)
  {
    LeastExists(s);
    var m :| IsLeast(m, s); m
  }

  /** The least element is the only element with that property. */
  lemma LeastUnique(m: string, s: set<string>)
    requires IsLeast(m, s)
    ensures s != {} && m == Least(s)
  {
    var l := Least(s);
    if m != l {
      BelowIrreflexive(m);
      assert Below(m, l) && Below(l, m);
      BelowTransitive(m, l, m);
    }
  }

  /** Sequence order agrees with `Below`. */
  ghost predicate Ascending(s: seq<string>)
  {
    forall i, j :: 0 <= i < j < |s| ==> Below(s[i], s[j])
  }

  /** The elements of `s` in the order a `std::set<std::string>` visits them. */
  ghost function Sorted(s: set<string>): seq<string>
    decreases |s|
  {
    if s == {} then [] else [Least(s)] + Sorted(s - {Least(s)})
  }

  /** Iteration visits every element once, in ascending order. */
  lemma {:induction false} SortedSpec(s: set<string>)
    ensures Elements(Sorted(s)) == s && |Sorted(s)| == |s|
    ensures NoDuplicates(Sorted(s)) && Ascending(Sorted(s))
    decreases |s|
  {
    if s != {} {
      var m := Least(s);
      SortedSpec(s - {m});
      PrependLeast(m, s, Sorted(s - {m}));
    }
  }

  /** Putting the least element in front of the sorted rest keeps the order. */
  lemma PrependLeast(m: string, s: set<string>, rest: seq<string>)
    requires IsLeast(m, s)
    requires Elements(rest) == s - {m} && |rest| == |s - {m}|
    requires NoDuplicates(rest) && Ascending(rest)
    ensures Elements([m] + rest) == s && |[m] + rest| == |s|
    ensures NoDuplicates([m] + rest) && Ascending([m] + rest)
  {
    var r := [m] + rest;
    assert Elements(r) == {m} + Elements(rest) by {
      assert forall x :: x in r <==> x == m || x in rest;
    }
    forall k | 0 <= k < |rest| ensures Below(m, rest[k]) {
      assert rest[k] in Elements(rest);
    }
    PrependBelow(m, rest);
  }

  /** A string below every element of an ascending sequence can be put in front of it. */
  lemma PrependBelow(m: string, rest: seq<string>)
    requires forall k :: 0 <= k < |rest| ==> Below(m, rest[k])
    requires NoDuplicates(rest) && Ascending(rest)
    ensures NoDuplicates([m] + rest) && Ascending([m] + rest)
  {
    var r := [m] + rest;
    forall i, j | 0 <= i < j < |r| ensures r[i] != r[j] && Below(r[i], r[j]) {
      var y := rest[j - 1];
      assert r[j] == y;
      if i == 0 {
        BelowIrreflexive(m);
      } else {
        assert r[i] == rest[i - 1];
      }
    }
  }

  /** Sorting a set starts with its least element. */
  lemma SortedCons(m: string, s: set<string>)
    requires IsLeast(m, s)
    ensures Sorted(s) == [m] + Sorted(s - {m})
  {
    LeastUnique(m, s);
  }

  lemma AppendAssociates<T>(a: seq<T>, b: seq<T>, c: seq<T>)
    ensures a + (b + c) == (a + b) + c
  {
  }

  /** A one-element set iterates as that element. */
  lemma SortedSingleton(x: string)
    ensures Sorted({x}) == [x]
  {
    assert IsLeast(x, {x});
    SortedCons(x, {x});
    assert {x} - {x} == {};
  }

  /** Walks `s` the way a range-for over a `std::set<std::string>` does. */
  method SortedElements(s: set<string>) returns (r: seq<string>)
    ensures r == Sorted(s)
  {
    r := [];
    var todo := s;
    while todo != {}
      invariant r + Sorted(todo) == Sorted(s)
      decreases |todo|
    {
      LeastExists(todo);
      var m :| IsLeast(m, todo);
      SortedCons(m, todo);
      AppendAssociates(r, [m], Sorted(todo - {m}));
      r := r + [m];
      todo := todo - {m};
    }
  }

  /** Whether `c` occurs in `s`. */
  predicate Occurs(s: string, c: char)
  {
    exists i :: 0 <= i < |s| && s[i] == c
  }

  /**
   * `std::string::find_first_of`: the first position at or after `from` holding one of `chars`,
   * or None for `npos` (also when `from` is past the end).
   */
  function FindFirstOf(s: string, chars: set<char>, from: nat): (r: Option<nat>)
    ensures r.Some? ==> from <= r.value < |s| && s[r.value] in chars
    ensures r.Some? ==> forall i :: from <= i < r.value ==> s[i] !in chars
    ensures r.None? ==> forall i :: from <= i < |s| ==> s[i] !in chars
    decreases |s| - from
  {
    if from >= |s| then None
    else if s[from] in chars then Some(from)
    else FindFirstOf(s, chars, from + 1)
  }

  /** `std::string::find_first_not_of`: the first position at or after `from` outside `chars`. */
  function FindFirstNotOf(s: string, chars: set<char>, from: nat): (r: Option<nat>)
    ensures r.Some? ==> from <= r.value < |s| && s[r.value] !in chars
    ensures r.Some? ==> forall i :: from <= i < r.value ==> s[i] in chars
    ensures r.None? ==> forall i :: from <= i < |s| ==> s[i] in chars
    decreases |s| - from
  {
    if from >= |s| then None
    else if s[from] !in chars then Some(from)
    else FindFirstNotOf(s, chars, from + 1)
  }

  /** A position `k` holding the first match at or after `from` is what `FindFirstOf` returns. */
  lemma FindFirstOfAt(s: string, chars: set<char>, from: nat, k: nat)
    requires from <= k < |s| && s[k] in chars
    requires forall i :: from <= i < k ==> s[i] !in chars
    ensures FindFirstOf(s, chars, from) == Some(k)
  {
  }

  /** The same for `FindFirstNotOf`. */
  lemma FindFirstNotOfAt(s: string, chars: set<char>, from: nat, k: nat)
    requires from <= k < |s| && s[k] !in chars
    requires forall i :: from <= i < k ==> s[i] in chars
    ensures FindFirstNotOf(s, chars, from) == Some(k)
  {
  }

  /** When nothing at or after `from` matches, `FindFirstOf` returns `npos`. */
  lemma FindFirstOfNone(s: string, chars: set<char>, from: nat)
    requires forall i :: from <= i < |s| ==> s[i] !in chars
    ensures FindFirstOf(s, chars, from) == None
  {
  }

  /** Searching a suffix gives the same position, shifted. */
  lemma {:induction false} FindFirstOfShift(s: string, chars: set<char>, from: nat)
    requires from <= |s|
    ensures FindFirstOf(s, chars, from) ==
            match FindFirstOf(s[from..], chars, 0)
            case None => None
            case Some(k) => Some(from + k)
  {
    match FindFirstOf(s[from..], chars, 0)
    case None =>
      FindFirstOfNone(s, chars, from);
    case Some(k) =>
      FindFirstOfAt(s, chars, from, from + k);
  }

  /** The parts of `key` between the separators `sep`, in order. */
  function Split(key: string, sep: char): (parts: seq<string>)
    ensures |parts| >= 1
    decreases |key|
  {
    match FindFirstOf(key, {sep}, 0)
    case None => [key]
    case Some(i) => [key[..i]] + Split(key[i + 1..], sep)
  }

  /** Splitting from `pos`: the part up to the next separator, then the parts after it. */
  lemma SplitFrom(key: string, sep: char, pos: nat)
    requires pos <= |key|
    ensures FindFirstOf(key, {sep}, pos).None? ==> Split(key[pos..], sep) == [key[pos..]]
    ensures FindFirstOf(key, {sep}, pos).Some? ==>
            var next := FindFirstOf(key, {sep}, pos).value;
            Split(key[pos..], sep) == [key[pos..next]] + Split(key[next + 1..], sep)
  {
    FindFirstOfShift(key, {sep}, pos);
    match FindFirstOf(key[pos..], {sep}, 0)
    case None =>
    case Some(k) =>
      assert key[pos..][..k] == key[pos..pos + k];
      assert key[pos..][k + 1..] == key[pos + k + 1..];
  }

  /** The parts joined back together with `sep` between them. */
  function Join(parts: seq<string>, sep: char): string
  {
    if |parts| == 0 then []
    else if |parts| == 1 then parts[0]
    else parts[0] + [sep] + Join(parts[1..], sep)
  }

  /** Splitting loses nothing: joining the parts with the separator gives the key back. */
  lemma {:induction false} JoinSplit(key: string, sep: char)
    ensures Join(Split(key, sep), sep) == key
    decreases |key|
  {
    match FindFirstOf(key, {sep}, 0)
    case None =>
    case Some(i) =>
      JoinSplit(key[i + 1..], sep);
      var rest := Split(key[i + 1..], sep);
      assert Split(key, sep) == [key[..i]] + rest;
      assert key == key[..i] + [sep] + key[i + 1..];
  }

  /** No part contains the separator, so a key without it is a single part. */
  lemma {:induction false} SplitParts(key: string, sep: char)
    ensures forall p :: p in Split(key, sep) ==> !Occurs(p, sep)
    ensures !Occurs(key, sep) ==> Split(key, sep) == [key]
    decreases |key|
  {
    match FindFirstOf(key, {sep}, 0)
    case None =>
    case Some(i) =>
      SplitParts(key[i + 1..], sep);
      assert !Occurs(key[..i], sep);
  }

  predicate IsDigit(c: char)
  {
    '0' <= c <= '9'
  }

  /** The characters of a decimal number. */
  predicate AllDigits(s: string)
  {
    forall i :: 0 <= i < |s| ==> IsDigit(s[i])
  }

  function DigitValue(c: char): (d: nat)
    requires IsDigit(c)
    ensures d < 10
  {
    c as int - '0' as int
  }

  function DigitChar(d: nat): (c: char)
    requires d < 10
    ensures IsDigit(c) && DigitValue(c) == d
  {
    ('0' as int + d) as char
  }

  /** The value of a string of decimal digits (0 for the empty string). */
  function DecimalValue(s: string): nat
    requires AllDigits(s)
  {
    if s == [] then 0 else DecimalValue(s[..|s| - 1]) * 10 + DigitValue(s[|s| - 1])
  }

  /** The decimal spelling of `n`, as `fmt::format("{}", n)` writes it. */
  function NatToDigits(n: nat): (s: string)
    ensures |s| >= 1 && AllDigits(s)
  {
    if n < 10 then [DigitChar(n)] else NatToDigits(n / 10) + [DigitChar(n % 10)]
  }

  /** Reading back the spelling of a number gives the number. */
  lemma {:induction false} DecimalRoundTrip(n: nat)
    ensures DecimalValue(NatToDigits(n)) == n
  {
    if n >= 10 {
      DecimalRoundTrip(n / 10);
      var s := NatToDigits(n);
      assert s[..|s| - 1] == NatToDigits(n / 10);
    }
  }
}
