/**
 * Shared vocabulary: an optional value, and the handful of JavaScript string
 * operations the application relies on (`startsWith`, `includes`, `split`,
 * `join`, `toLowerCase` on ASCII, `String(n)` for non-negative integers).
 */
module Base {

  /** A value that may be absent (JavaScript's `null`/`undefined`). */
  datatype Option<+T> = None | Some(value: T)

  /** `s.startsWith(prefix)` */
  predicate StartsWith(s: string, prefix: string)
  {
    |prefix| <= |s| && s[..|prefix|] == prefix
  }

  /** `part` occurs in `s` starting at index `i`. */
  predicate OccursAt(s: string, part: string, i: nat)
  {
    i + |part| <= |s| && s[i..i + |part|] == part
  }

  /** `s.includes(part)` */
  predicate Contains(s: string, part: string)
  {
    exists i :: 0 <= i <= |s| && OccursAt(s, part, i)
  }

  /** Index of the first `c` in `s`, if any (`s.indexOf(c)`). */
  function FirstIndex(s: string, c: char): (r: Option<nat>)
    ensures r.Some? ==> r.value < |s| && s[r.value] == c
    ensures r.Some? ==> forall j :: 0 <= j < r.value ==> s[j] != c
    ensures r.None? <==> c !in s
  {
    if |s| == 0 then None
    else if s[0] == c then Some(0)
    else match FirstIndex(s[1..], c)
      case None => None
      case Some(i) => Some(i + 1)
  }

  /** Index of the last `c` in `s`, if any (`s.lastIndexOf(c)`). */
  function LastIndex(s: string, c: char): (r: Option<nat>)
    ensures r.Some? ==> r.value < |s| && s[r.value] == c
    ensures r.Some? ==> forall j :: r.value < j < |s| ==> s[j] != c
    ensures r.None? <==> c !in s
  {
    if |s| == 0 then None
    else if s[|s| - 1] == c then Some(|s| - 1)
    else LastIndex(s[..|s| - 1], c)
  }

  /** `s.split(sep)` for a one-character separator: the maximal separator-free pieces, in order. */
  function Split(s: string, sep: char): (fields: seq<string>)
    ensures |fields| >= 1
    decreases |s|
  {
    match FirstIndex(s, sep)
    case None => [s]
    case Some(i) => [s[..i]] + Split(s[i + 1..], sep)
  }

  /** `fields.join(sep)` for a one-character separator. */
  function Join(fields: seq<string>, sep: char): string
  {
    if |fields| == 0 then ""
    else if |fields| == 1 then fields[0]
    else fields[0] + [sep] + Join(fields[1..], sep)
  }

  /** Joining a non-empty tail behind a first piece puts one separator between them. */
  lemma JoinCons(head: string, tail: seq<string>, sep: char)
    requires |tail| >= 1
    ensures Join([head] + tail, sep) == head + [sep] + Join(tail, sep)
  {
    assert ([head] + tail)[1..] == tail;
  }

  /** Splitting and re-joining on the same separator gives back the original text. */
  lemma {:induction false} JoinSplit(s: string, sep: char)
    ensures Join(Split(s, sep), sep) == s
    decreases |s|
  {
    var first := FirstIndex(s, sep);
    if first.Some? {
      var i := first.value;
      var rest := s[i + 1..];
      var tail := Split(rest, sep);
      assert Split(s, sep) == [s[..i]] + tail;
      assert Join(tail, sep) == rest by {
        JoinSplit(rest, sep);
      }
      assert Join([s[..i]] + tail, sep) == s[..i] + [sep] + Join(tail, sep) by {
        JoinCons(s[..i], tail, sep);
      }
      assert s == s[..i] + [sep] + rest;
    }
  }

  /** No piece of a split contains the separator, and text without it splits into itself alone. */
  lemma {:induction false} SplitPieces(s: string, sep: char)
    ensures forall k :: 0 <= k < |Split(s, sep)| ==> sep !in Split(s, sep)[k]
    ensures sep !in s <==> Split(s, sep) == [s]
    decreases |s|
  {
    var first := FirstIndex(s, sep);
    if first.Some? {
      var i := first.value;
      SplitPieces(s[i + 1..], sep);
      assert Split(s, sep) == [s[..i]] + Split(s[i + 1..], sep);
    }
  }

  /** Text with exactly one separator splits into the parts before and after it. */
  lemma SplitTwo(a: string, b: string, sep: char)
    requires sep !in a && sep !in b
    ensures Split(a + [sep] + b, sep) == [a, b]
  {
    var s := a + [sep] + b;
    assert s[|a|] == sep;
    var i := FirstIndex(s, sep).value;
    assert forall j :: 0 <= j < |a| ==> s[j] == a[j];
    assert s[..i] == a && s[i + 1..] == b;
    assert Split(b, sep) == [b] by {
      SplitPieces(b, sep);
    }
    assert Split(s, sep) == [a] + Split(b, sep);
  }

  /** Every piece of a split is a stretch of the original text. */
  lemma SplitPiecesWithin(s: string, sep: char, k: nat)
    requires Field(s, sep, k).Some?
    ensures forall c :: c in Field(s, sep, k).value ==> c in s
  {
    JoinSplit(s, sep);
    JoinHolds(Split(s, sep), sep, k);
  }

  /** Every character of a joined piece is in the joined text. */
  lemma {:induction false} JoinHolds(fields: seq<string>, sep: char, k: nat)
    requires k < |fields|
    ensures forall c :: c in fields[k] ==> c in Join(fields, sep)
    decreases |fields|
  {
    if |fields| > 1 {
      assert Join(fields, sep) == fields[0] + [sep] + Join(fields[1..], sep);
      if k > 0 {
        JoinHolds(fields[1..], sep, k - 1);
      }
    }
  }

  /** The first piece of a split is everything before the first separator. */
  lemma FirstPiece(head: string, rest: string, sep: char)
    requires sep !in head
    ensures Field(head + [sep] + rest, sep, 0) == Some(head)
  {
    var s := head + [sep] + rest;
    assert s[|head|] == sep;
    assert forall j :: 0 <= j < |head| ==> s[j] == head[j];
    assert s[..|head|] == head;
  }

  /** `s.split(sep)[k]`, which is `undefined` when there are not enough pieces. */
  function Field(s: string, sep: char, k: nat): (r: Option<string>)
    ensures r.Some? ==> sep !in r.value
    ensures r.None? <==> k >= |Split(s, sep)|
  {
    var fields := Split(s, sep);
    SplitPieces(s, sep);
    if k < |fields| then Some(fields[k]) else None
  }

  /** The first piece of `s.split(sep)` is everything before the first separator. */
  lemma FirstField(s: string, sep: char)
    ensures Field(s, sep, 0) == Some(match FirstIndex(s, sep) case None => s case Some(i) => s[..i])
  {
  }

  /** `parts.join(sep)` for an arbitrary separator string (`[]` joins to `""`). */
  function JoinWith(parts: seq<string>, sep: string): string
  {
    if |parts| == 0 then ""
    else if |parts| == 1 then parts[0]
    else parts[0] + sep + JoinWith(parts[1..], sep)
  }

  /**
   * `types.map(t => t.split('/')[1]).join(', ')`: the subtypes of a list of
   * MIME types, as the validators list them in their messages (a type
   * without a `/` contributes an empty entry, as `join` writes `undefined`).
   */
  function SubtypeList(types: seq<string>): string
  {
    JoinWith(Subtypes(types), ", ")
  }

  /** `t.split('/')[1]`, with `undefined` written as `""`. */
  function Subtype(t: string): (r: string)
    ensures '/' !in r
  {
    match Field(t, '/', 1) case Some(sub) => sub case None => ""
  }

  function Subtypes(types: seq<string>): (r: seq<string>)
    ensures |r| == |types|
    ensures forall i :: 0 <= i < |types| ==> r[i] == Subtype(types[i])
  {
    if |types| == 0 then [] else [Subtype(types[0])] + Subtypes(types[1..])
  }

  /** ASCII case folding, as `toLowerCase` acts on ASCII letters. */
  function LowerChar(c: char): (r: char)
    ensures 'A' <= c <= 'Z' ==> 'a' <= r <= 'z'
    ensures !('A' <= c <= 'Z') ==> r == c
  {
    if 'A' <= c <= 'Z' then (c as int - 'A' as int + 'a' as int) as char else c
  }

  function ToLower(s: string): (r: string)
    ensures |r| == |s|
    ensures forall i :: 0 <= i < |s| ==> r[i] == LowerChar(s[i])
  {
    seq(|s|, i requires 0 <= i < |s| => LowerChar(s[i]))
  }

  predicate IsDigit(c: char)
  {
    '0' <= c <= '9'
  }

  function DigitChar(d: nat): (c: char)
    requires d < 10
    ensures IsDigit(c)
  {
    ('0' as int + d) as char
  }

  function DigitValue(c: char): nat
    requires IsDigit(c)
  {
    c as int - '0' as int
  }

  /** `String(n)` for a non-negative integer: its decimal digits, most significant first. */
  function NatToString(n: nat): (s: string)
    ensures |s| >= 1
    ensures forall i :: 0 <= i < |s| ==> IsDigit(s[i])
    ensures |s| > 1 ==> s[0] != '0'
    ensures n < 10 <==> |s| == 1
  {
    if n < 10 then [DigitChar(n)] else NatToString(n / 10) + [DigitChar(n % 10)]
  }

  /** The number a string of decimal digits denotes. */
  function ParseDigits(s: string): nat
    requires forall i :: 0 <= i < |s| ==> IsDigit(s[i])
  {
    if |s| == 0 then 0 else 10 * ParseDigits(s[..|s| - 1]) + DigitValue(s[|s| - 1])
  }

  /** Reading back the digits `String(n)` writes gives `n`. */
  lemma {:induction false} ParseNatToString(n: nat)
    ensures ParseDigits(NatToString(n)) == n
  {
    var s := NatToString(n);
    if n >= 10 {
      ParseNatToString(n / 10);
      assert s[..|s| - 1] == NatToString(n / 10);
    }
  }

  /** Distinct numbers are written differently. */
  lemma NatToStringInjective(m: nat, n: nat)
    requires NatToString(m) == NatToString(n)
    ensures m == n
  {
    ParseNatToString(m);
    ParseNatToString(n);
  }

  /** 2 to the power `k` (`Math.pow(2, k)` for a non-negative integer exponent). */
  function Pow2(k: nat): (r: nat)
    ensures r >= 1
  {
    if k == 0 then 1 else 2 * Pow2(k - 1)
  }
}
