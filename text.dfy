/**
 * The JavaScript string operations the core relies on, over `seq<char>`.
 * Case mapping and whitespace are those of ASCII.
 */
module Text {
  predicate IsUpper(c: char) { 'A' <= c <= 'Z' }

  predicate IsLower(c: char) { 'a' <= c <= 'z' }

  function ToLowerChar(c: char): (r: char)
    ensures !IsUpper(r)
    ensures IsUpper(c) ==> IsLower(r) && ToUpperChar(r) == c
    ensures !IsUpper(c) ==> r == c
  {
    if IsUpper(c) then (c as int + 32) as char else c
  }

  function ToUpperChar(c: char): (r: char)
    ensures !IsLower(r)
    ensures IsLower(c) ==> IsUpper(r) && (r as int + 32) as char == c
    ensures !IsLower(c) ==> r == c
  {
    if IsLower(c) then (c as int - 32) as char else c
  }

  /** `s.toLowerCase()`. */
  function ToLower(s: string): (r: string)
    ensures |r| == |s|
    ensures forall i :: 0 <= i < |s| ==> r[i] == ToLowerChar(s[i])
  {
    seq(|s|, i requires 0 <= i < |s| => ToLowerChar(s[i]))
  }

  /** `w.charAt(0).toUpperCase() + w.slice(1)`. */
  function Capitalize(w: string): (r: string)
    ensures |r| == |w|
    ensures |w| > 0 ==> r[0] == ToUpperChar(w[0]) && r[1..] == w[1..]
  {
    if w == [] then [] else [ToUpperChar(w[0])] + w[1..]
  }

  /** Capitalising a word without upper-case letters is undone by `ToLower`. */
  lemma LowerUndoesCapitalize(w: string)
    requires forall i :: 0 <= i < |w| ==> !IsUpper(w[i])
    ensures ToLower(Capitalize(w)) == w
  {
    var r := ToLower(Capitalize(w));
    forall i | 0 <= i < |w| ensures r[i] == w[i] {
      if i == 0 {
        if IsLower(w[0]) {
          assert ToLowerChar(ToUpperChar(w[0])) == w[0];
        }
      }
    }
  }

  /** `sub` occurs in `s` (`s.includes(sub)`). */
  predicate Contains(s: string, sub: string)
    decreases |s|
  {
    if |sub| > |s| then false
    else if s[..|sub|] == sub then true
    else Contains(s[1..], sub)
  }

  /** `sub` sits in `s` starting at index `i`. */
  predicate OccursAt(s: string, sub: string, i: int) {
    0 <= i <= |s| - |sub| && s[i..i + |sub|] == sub
  }

  /** `Contains` is an occurrence of `sub` as a slice of `s`. */
  lemma {:induction false} ContainsIsSlice(s: string, sub: string)
    ensures Contains(s, sub) <==> exists i :: OccursAt(s, sub, i)
    decreases |s|
  {
    if |sub| > |s| {
      assert forall i :: !OccursAt(s, sub, i);
    } else if s[..|sub|] == sub {
      assert OccursAt(s, sub, 0);
    } else {
      ContainsIsSlice(s[1..], sub);
      forall i | OccursAt(s[1..], sub, i) ensures OccursAt(s, sub, i + 1) {
        assert s[i + 1..i + 1 + |sub|] == s[1..][i..i + |sub|];
      }
      forall i | OccursAt(s, sub, i) ensures OccursAt(s[1..], sub, i - 1) {
        assert s[1..][i - 1..i - 1 + |sub|] == s[i..i + |sub|];
      }
    }
  }

  /** Text can only occur in something at least as long. */
  lemma {:induction false} ContainsFits(s: string, sub: string)
    requires Contains(s, sub)
    ensures |sub| <= |s|
    decreases |s|
  {
    if |sub| <= |s| && s[..|sub|] != sub {
      ContainsFits(s[1..], sub);
    }
  }

  /** An occurrence survives text added in front. */
  lemma {:induction false} ContainsExtendLeft(a: string, s: string, sub: string)
    requires Contains(s, sub)
    ensures Contains(a + s, sub)
    decreases |a|
  {
    if a == [] {
      assert a + s == s;
    } else {
      ContainsFits(s, sub);
      ContainsExtendLeft(a[1..], s, sub);
      assert (a + s)[1..] == a[1..] + s;
    }
  }

  /** An occurrence survives text added behind. */
  lemma {:induction false} ContainsExtendRight(s: string, c: string, sub: string)
    requires Contains(s, sub)
    ensures Contains(s + c, sub)
    decreases |s|
  {
    if (s + c)[..|sub|] != sub {
      assert s[..|sub|] != sub by {
        assert (s + c)[..|sub|] == s[..|sub|];
      }
      ContainsExtendRight(s[1..], c, sub);
      assert (s + c)[1..] == s[1..] + c;
    }
  }

  /** Whatever is put between two texts occurs in the result. */
  lemma ContainsInfix(a: string, b: string, c: string)
    ensures Contains(a + b + c, b)
  {
    assert (b + c)[..|b|] == b;
    ContainsExtendLeft(a, b + c, b);
    assert a + b + c == a + (b + c);
  }

  /** `parts.join(sep)`. */
  function Join(parts: seq<string>, sep: string): (r: string)
    ensures parts == [] ==> r == []
    ensures |parts| == 1 ==> r == parts[0]
    decreases |parts|
  {
    if parts == [] then []
    else if |parts| == 1 then parts[0]
    else parts[0] + sep + Join(parts[1..], sep)
  }

  /** Joining one more part appends the separator and that part. */
  lemma {:induction false} JoinAppend(parts: seq<string>, p: string, sep: string)
    requires |parts| >= 1
    ensures Join(parts + [p], sep) == Join(parts, sep) + sep + p
    decreases |parts|
  {
    if |parts| > 1 {
      JoinAppend(parts[1..], p, sep);
      assert (parts + [p])[1..] == parts[1..] + [p];
    } else {
      assert (parts + [p])[1..] == [p];
    }
  }

  /** Every part occurs in the joined text. */
  lemma {:induction false} JoinContainsPart(parts: seq<string>, sep: string, i: nat)
    requires i < |parts|
    ensures Contains(Join(parts, sep), parts[i])
    decreases |parts|
  {
    if |parts| == 1 {
      ContainsInfix([], parts[0], []);
      assert [] + parts[0] + [] == parts[0];
    } else if i == 0 {
      ContainsInfix([], parts[0], sep + Join(parts[1..], sep));
      assert [] + parts[0] + (sep + Join(parts[1..], sep)) == Join(parts, sep);
    } else {
      JoinContainsPart(parts[1..], sep, i - 1);
      ContainsExtendLeft(parts[0] + sep, Join(parts[1..], sep), parts[i]);
      assert parts[0] + sep + Join(parts[1..], sep) == Join(parts, sep);
    }
  }

  /** `s.split(sep)` for a one-character separator; `"".split(sep)` is `[""]`. */
  function Split(s: string, sep: char): (parts: seq<string>)
    ensures |parts| >= 1
    ensures forall i :: 0 <= i < |parts| ==> sep !in parts[i]
    ensures Join(parts, [sep]) == s
  {
    if s == [] then [[]]
    else
      var rest := Split(s[1..], sep);
      if s[0] == sep then
        var parts := [[]] + rest;
        assert parts[1..] == rest;
        assert s == [sep] + s[1..];
        parts
      else
        var parts := [[s[0]] + rest[0]] + rest[1..];
        assert s == [s[0]] + s[1..];
        assert parts[1..] == rest[1..];
        assert |rest| > 1 ==> Join(rest, [sep]) == rest[0] + [sep] + Join(rest[1..], [sep]);
        parts
  }

  /** Splitting a word followed by more text extends the first part. */
  lemma {:induction false} SplitAfterWord(a: string, t: string, sep: char)
    requires sep !in a
    ensures var rest := Split(t, sep);
            Split(a + t, sep) == [a + rest[0]] + rest[1..]
  {
    var r := Split(t, sep);
    if a != [] {
      SplitAfterWord(a[1..], t, sep);
      var rest := Split(a[1..] + t, sep);
      assert rest == [a[1..] + r[0]] + r[1..];
      assert rest[0] == a[1..] + r[0];
      assert rest[1..] == r[1..];
      assert (a + t)[1..] == a[1..] + t;
      assert (a + t)[0] == a[0];
      assert Split(a + t, sep) == [[a[0]] + rest[0]] + rest[1..];
      assert [a[0]] + (a[1..] + r[0]) == a + r[0];
    } else {
      assert a + t == t;
      assert a + r[0] == r[0];
      assert r == [r[0]] + r[1..];
    }
  }

  lemma SplitAfterSeparator(t: string, sep: char)
    ensures Split([sep] + t, sep) == [[]] + Split(t, sep)
  {
    assert ([sep] + t)[1..] == t;
  }

  /** Splitting undoes joining, when no part holds the separator. */
  lemma {:induction false} SplitJoin(parts: seq<string>, sep: char)
    requires |parts| >= 1
    requires forall i :: 0 <= i < |parts| ==> sep !in parts[i]
    ensures Split(Join(parts, [sep]), sep) == parts
    decreases |parts|
  {
    if |parts| == 1 {
      SplitAfterWord(parts[0], [], sep);
      assert Split([], sep) == [[]];
      assert parts[0] + [] == parts[0];
      assert [parts[0] + []] + [[]][1..] == parts;
    } else {
      var tail := Join(parts[1..], [sep]);
      assert Join(parts, [sep]) == parts[0] + [sep] + tail;
      SplitJoin(parts[1..], sep);
      SplitAfterWord(parts[0], [sep] + tail, sep);
      assert parts[0] + [sep] + tail == parts[0] + ([sep] + tail);
      var r := Split([sep] + tail, sep);
      SplitAfterSeparator(tail, sep);
      assert r[0] == [] && r[1..] == parts[1..];
      assert parts[0] + r[0] == parts[0];
      assert parts == [parts[0]] + parts[1..];
    }
  }

  /** The whitespace `String.prototype.trim` removes, for ASCII text. */
  predicate IsWhitespace(c: char) {
    c == ' ' || c == '\t' || c == '\n' || c == '\r' || c == '\U{000B}' || c == '\U{000C}'
  }

  function TrimStart(s: string): (r: string)
    ensures |r| <= |s| && r == s[|s| - |r|..]
    ensures forall i :: 0 <= i < |s| - |r| ==> IsWhitespace(s[i])
    ensures r != [] ==> !IsWhitespace(r[0])
  {
    if s != [] && IsWhitespace(s[0]) then TrimStart(s[1..]) else s
  }

  function TrimEnd(s: string): (r: string)
    ensures |r| <= |s| && r == s[..|r|]
    ensures forall i :: |r| <= i < |s| ==> IsWhitespace(s[i])
    ensures r != [] ==> !IsWhitespace(r[|r| - 1])
  {
    if s != [] && IsWhitespace(s[|s| - 1]) then TrimEnd(s[..|s| - 1]) else s
  }

  /** `s.trim()`. */
  function Trim(s: string): (r: string)
    ensures |r| <= |s|
    ensures r != [] ==> !IsWhitespace(r[0]) && !IsWhitespace(r[|r| - 1])
  {
    TrimEnd(TrimStart(s))
  }

  /** Where the trimmed value sits in `s`. */
  lemma TrimBounds(s: string)
    ensures var i := |s| - |TrimStart(s)|;
      var j := i + |Trim(s)|;
      0 <= i <= j <= |s| && Trim(s) == s[i..j] &&
      (forall k :: 0 <= k < i ==> IsWhitespace(s[k])) &&
      (forall k :: j <= k < |s| ==> IsWhitespace(s[k]))
  {
    var t := TrimStart(s);
    var i := |s| - |t|;
    var j := i + |TrimEnd(t)|;
    assert t == s[i..];
    forall k | j <= k < |s| ensures IsWhitespace(s[k]) {
      assert s[k] == t[k - i];
    }
  }

  /** What trimming keeps: a slice of `s` with only whitespace cut off each end. */
  lemma TrimIsSlice(s: string)
    ensures exists i, j :: 0 <= i <= j <= |s| && Trim(s) == s[i..j] &&
              (forall k :: 0 <= k < i ==> IsWhitespace(s[k])) &&
              (forall k :: j <= k < |s| ==> IsWhitespace(s[k]))
    ensures Trim(s) != [] ==> !IsWhitespace(Trim(s)[0]) && !IsWhitespace(Trim(s)[|Trim(s)| - 1])
  {
    TrimBounds(s);
    var i := |s| - |TrimStart(s)|;
    var j := i + |Trim(s)|;
    assert 0 <= i <= j <= |s| && Trim(s) == s[i..j] &&
           (forall k :: 0 <= k < i ==> IsWhitespace(s[k])) &&
           (forall k :: j <= k < |s| ==> IsWhitespace(s[k]));
  }

  /** A trimmed value is empty exactly when the text is all whitespace. */
  lemma TrimEmpty(s: string)
    ensures Trim(s) == [] <==> forall k :: 0 <= k < |s| ==> IsWhitespace(s[k])
  {
    var t := TrimStart(s);
    if t != [] {
      assert !IsWhitespace(t[0]);
      assert TrimEnd(t) != [];
      assert !IsWhitespace(s[|s| - |t|]);
    }
  }

  function DigitChar(d: int): (c: char)
    requires 0 <= d < 10
    ensures '0' <= c <= '9' && c as int - '0' as int == d
  {
    ('0' as int + d) as char
  }

  /** `String(n)` for a natural number: its decimal digits, no leading zero. */
  function DecimalString(n: nat): (r: string)
    ensures |r| >= 1
    ensures forall i :: 0 <= i < |r| ==> '0' <= r[i] <= '9'
    ensures |r| > 1 ==> r[0] != '0'
  {
    if n < 10 then [DigitChar(n)] else DecimalString(n / 10) + [DigitChar(n % 10)]
  }

  /** The value of a string of decimal digits. */
  function DecimalValue(s: string): int
  {
    if s == [] then 0 else 10 * DecimalValue(s[..|s| - 1]) + (s[|s| - 1] as int - '0' as int)
  }

  /** Reading back the decimal digits gives the number. */
  lemma {:induction false} DecimalRoundTrip(n: nat)
    ensures DecimalValue(DecimalString(n)) == n
  {
    if n >= 10 {
      DecimalRoundTrip(n / 10);
      var r := DecimalString(n);
      assert r[..|r| - 1] == DecimalString(n / 10);
    } else {
      assert DecimalString(n)[..0] == [];
    }
  }

  /** `s.padStart(len, pad)` for a one-character pad. */
  function PadStart(s: string, len: nat, pad: char): (r: string)
    ensures |r| == if |s| < len then len else |s|
    ensures r[|r| - |s|..] == s
    ensures forall i :: 0 <= i < |r| - |s| ==> r[i] == pad
  {
    if |s| >= len then s else seq(len - |s|, _ => pad) + s
  }
}
