/** The string primitives the scraper relies on: substring test (`in`),
    `split('/')`, `lower()`, `split()[0]` and `int()`. Each is given an
    independent characterisation, since the rest of the model is stated in
    terms of them. Python's full Unicode tables are not modelled: `lower()`
    covers ASCII and the basic Cyrillic alphabet, `split()` the ASCII
    whitespace characters and the no-break space, `int()` an optional sign
    followed by ASCII digits. */
module Text {
  import opened Outcome

  // ---------------------------------------------------------------------
  // Substring test: Python's `needle in hay`

  /** `needle` occurs in `hay` starting at position `i`. */
  predicate OccursAt(needle: string, hay: string, i: nat)
  {
    i + |needle| <= |hay| && hay[i..i + |needle|] == needle
  }

  /** Python's `needle in hay` on strings, scanning start positions left to right. */
  function Contains(needle: string, hay: string): (found: bool)
    ensures found <==> exists i: nat :: OccursAt(needle, hay, i)
    decreases |hay|
  {
    if OccursAt(needle, hay, 0) then
      true
    else if |hay| == 0 then
      false
    else
      ShiftOccurrences(needle, hay);
      Contains(needle, hay[1..])
  }

  /** Dropping the first character of `hay` shifts every later occurrence by one. */
  lemma ShiftOccurrences(needle: string, hay: string)
    requires |hay| > 0 && !OccursAt(needle, hay, 0)
    ensures (exists i: nat :: OccursAt(needle, hay, i)) <==> (exists j: nat :: OccursAt(needle, hay[1..], j))
  {
    forall j: nat | OccursAt(needle, hay[1..], j)
      ensures OccursAt(needle, hay, j + 1)
    {
      assert hay[1..][j..j + |needle|] == hay[j + 1..j + 1 + |needle|];
    }
    forall i: nat | OccursAt(needle, hay, i)
      ensures i > 0 && OccursAt(needle, hay[1..], i - 1)
    {
      assert hay[1..][i - 1..i - 1 + |needle|] == hay[i..i + |needle|];
    }
  }

  // ---------------------------------------------------------------------
  // Splitting on one separator: Python's `s.split(sep)`

  /** Python's `s.split(sep)` for a one-character separator: the pieces
      between separators, empty pieces included; never an empty list. */
  function Split(s: string, sep: char): (parts: seq<string>)
    ensures |parts| >= 1
    ensures forall k :: 0 <= k < |parts| ==> sep !in parts[k]
    decreases |s|
  {
    if |s| == 0 then
      [""]
    else
      var rest := Split(s[1..], sep);
      if s[0] == sep then [""] + rest
      else [[s[0]] + rest[0]] + rest[1..]
  }

  /** Python's `sep.join(parts)`. */
  function Join(parts: seq<string>, sep: char): string
    decreases |parts|
  {
    if |parts| == 0 then ""
    else if |parts| == 1 then parts[0]
    else parts[0] + [sep] + Join(parts[1..], sep)
  }

  /** Joining the pieces back with the separator gives the original string. */
  lemma {:induction false} JoinSplit(s: string, sep: char)
    ensures Join(Split(s, sep), sep) == s
    decreases |s|
  {
    if |s| > 0 {
      var rest := Split(s[1..], sep);
      JoinSplit(s[1..], sep);
      if s[0] == sep {
        assert ([""] + rest)[1..] == rest;
      } else if |rest| > 1 {
        var parts := [[s[0]] + rest[0]] + rest[1..];
        assert parts[1..] == rest[1..];
      }
    }
  }

  /** A piece free of the separator splits to itself. */
  lemma {:induction false} SplitSeparatorFree(p: string, sep: char)
    requires sep !in p
    ensures Split(p, sep) == [p]
    decreases |p|
  {
    if |p| > 0 {
      SplitSeparatorFree(p[1..], sep);
      assert [p[0]] + p[1..] == p;
    }
  }

  /** A separator-free prefix followed by the separator becomes one piece. */
  lemma {:induction false} SplitAfterPiece(p: string, t: string, sep: char)
    requires sep !in p
    ensures Split(p + [sep] + t, sep) == [p] + Split(t, sep)
    decreases |p|
  {
    var s := p + [sep] + t;
    if |p| == 0 {
      assert s[1..] == t;
    } else {
      assert s[1..] == p[1..] + [sep] + t;
      SplitAfterPiece(p[1..], t, sep);
      assert [p[0]] + p[1..] == p;
    }
  }

  /** Splitting a join of separator-free pieces recovers the pieces. */
  lemma {:induction false} SplitJoin(parts: seq<string>, sep: char)
    requires |parts| >= 1
    requires forall k :: 0 <= k < |parts| ==> sep !in parts[k]
    ensures Split(Join(parts, sep), sep) == parts
    decreases |parts|
  {
    if |parts| == 1 {
      SplitSeparatorFree(parts[0], sep);
    } else {
      SplitJoin(parts[1..], sep);
      SplitAfterPiece(parts[0], Join(parts[1..], sep), sep);
      assert [parts[0]] + parts[1..] == parts;
    }
  }

  // ---------------------------------------------------------------------
  // Lower-casing: Python's `s.lower()`, restricted as described above

  function LowerChar(c: char): char
  {
    if 'A' <= c <= 'Z' || 'А' <= c <= 'Я' then (c as int + 32) as char
    else if c == 'Ё' then 'ё'
    else c
  }

  /** The capital letters `lower()` changes here. */
  predicate IsUpper(c: char)
  {
    'A' <= c <= 'Z' || 'А' <= c <= 'Я' || c == 'Ё'
  }

  function Lower(s: string): (r: string)
    ensures |r| == |s|
    ensures forall i :: 0 <= i < |s| ==> r[i] == LowerChar(s[i])
  {
    seq(|s|, i requires 0 <= i < |s| => LowerChar(s[i]))
  }

  /** Lower-casing leaves no capital behind, changes exactly the capitals,
      and is therefore a projection: a string is its own lower-case form
      exactly when it holds no capital, and lower-casing twice is the same
      as once. */
  lemma LowerProjects(s: string)
    ensures forall i :: 0 <= i < |s| ==> !IsUpper(Lower(s)[i])
    ensures forall i :: 0 <= i < |s| ==> (Lower(s)[i] == s[i] <==> !IsUpper(s[i]))
    ensures Lower(s) == s <==> forall i :: 0 <= i < |s| ==> !IsUpper(s[i])
    ensures Lower(Lower(s)) == Lower(s)
  {
  }

  // ---------------------------------------------------------------------
  // First whitespace-delimited token: Python's `s.split()[0]`

  predicate IsSpace(c: char)
  {
    c == ' ' || c == '\t' || c == '\n' || c == '\r' || c == '\U{000B}' || c == '\U{000C}' || c == '\U{00A0}'
  }

  /** Length of the leading run of whitespace. */
  function SpaceSpan(s: string): (k: nat)
    ensures k <= |s|
    ensures forall i :: 0 <= i < k ==> IsSpace(s[i])
    ensures k < |s| ==> !IsSpace(s[k])
    decreases |s|
  {
    if |s| == 0 || !IsSpace(s[0]) then 0 else 1 + SpaceSpan(s[1..])
  }

  /** Length of the leading run of non-whitespace. */
  function WordSpan(s: string): (k: nat)
    ensures k <= |s|
    ensures forall i :: 0 <= i < k ==> !IsSpace(s[i])
    ensures k < |s| ==> IsSpace(s[k])
    decreases |s|
  {
    if |s| == 0 || IsSpace(s[0]) then 0 else 1 + WordSpan(s[1..])
  }

  /** Python's `s.split()[0]`; `None` where that indexing raises, which is
      exactly when `s` holds no token at all. */
  function FirstToken(s: string): (tok: Option<string>)
    ensures tok.None? <==> forall i :: 0 <= i < |s| ==> IsSpace(s[i])
    ensures tok.Some? ==> |tok.value| > 0 && forall i :: 0 <= i < |tok.value| ==> !IsSpace(tok.value[i])
    ensures tok.Some? ==>
      var k := SpaceSpan(s);
      && k + |tok.value| <= |s|
      && s[k..k + |tok.value|] == tok.value
      && (k + |tok.value| == |s| || IsSpace(s[k + |tok.value|]))
  {
    var k := SpaceSpan(s);
    if k == |s| then None
    else
      var w := WordSpan(s[k..]);
      assert s[k..][..w] == s[k..k + w];
      Some(s[k..k + w])
  }

  // ---------------------------------------------------------------------
  // Integer parsing: Python's `int(s)`, restricted as described above

  predicate IsDigit(c: char)
  {
    '0' <= c <= '9'
  }

  /** A non-empty run of ASCII digits. */
  predicate IsDigits(s: string)
  {
    |s| > 0 && forall i :: 0 <= i < |s| ==> IsDigit(s[i])
  }

  /** Decimal value of a digit string, most significant digit first. */
  function DigitsValue(s: string): nat
    requires forall i :: 0 <= i < |s| ==> IsDigit(s[i])
    decreases |s|
  {
    if |s| == 0 then 0
    else
      assert IsDigit(s[|s| - 1]);
      10 * DigitsValue(s[..|s| - 1]) + (s[|s| - 1] as int - '0' as int)
  }

  /** `int(s)`; `None` where Python raises ValueError. */
  function ParseInt(s: string): (r: Option<int>)
    ensures r.Some? <==> IsDigits(s) || (|s| > 0 && (s[0] == '+' || s[0] == '-') && IsDigits(s[1..]))
    ensures r.Some? && IsDigits(s) ==> r.value == DigitsValue(s)
    ensures r.Some? && !IsDigits(s) ==>
      r.value == (if s[0] == '-' then -(DigitsValue(s[1..]) as int) else DigitsValue(s[1..]))
  {
    if |s| > 0 && (s[0] == '+' || s[0] == '-') then
      if IsDigits(s[1..]) then
        var n: int := DigitsValue(s[1..]);
        Some(if s[0] == '-' then -n else n)
      else None
    else if IsDigits(s) then Some(DigitsValue(s))
    else None
  }

  /** Decimal rendering of a natural number (Python's `str(n)`). */
  function ShowNat(n: nat): (s: string)
    ensures IsDigits(s)
    decreases n
  {
    if n < 10 then [('0' as int + n) as char]
    else ShowNat(n / 10) + [('0' as int + n % 10) as char]
  }

  /** Parsing a rendered number gives the number back. */
  lemma {:induction false} ParseShowNat(n: nat)
    ensures ParseInt(ShowNat(n)) == Some(n)
    ensures ParseInt("-" + ShowNat(n)) == Some(0 - n)
    decreases n
  {
    var s := ShowNat(n);
    if n >= 10 {
      ParseShowNat(n / 10);
      assert s[..|s| - 1] == ShowNat(n / 10);
    }
    assert DigitsValue(s) == n;
    assert ("-" + s)[1..] == s;
  }
}
