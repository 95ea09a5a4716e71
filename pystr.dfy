/**
  The pieces of Python's `str` behaviour that the puzzle solutions rely on:
  whitespace stripping, `split` with and without a separator, `int()` on a
  string, and `count`. Whitespace and digits are modelled for the ASCII
  range only.
 */
module PyStr {

  import opened Common

  /**
    The ASCII characters Python's `str.isspace` accepts (and so `strip`,
    `split()` and `int()` skip): space, tab, line feed, carriage return,
    vertical tab, form feed, and the separators 0x1C to 0x1F.
   */
  predicate IsSpace(c: char) {
    || c == ' ' || c == '\t' || c == '\n' || c == '\r' || c == '\U{B}' || c == '\U{C}'
    || ('\U{1C}' <= c <= '\U{1F}')
  }

  predicate IsDigit(c: char) {
    '0' <= c <= '9'
  }

  predicate AllDigits(s: string) {
    forall i :: 0 <= i < |s| ==> IsDigit(s[i])
  }

  predicate NoSpace(s: string) {
    forall i :: 0 <= i < |s| ==> !IsSpace(s[i])
  }

  // ---------------------------------------------------------------------
  // strip, lstrip, rstrip

  /** `s.rstrip()`: drop trailing whitespace. */
  function RStrip(s: string): (r: string)
    ensures |r| <= |s|
  {
    if s == [] || !IsSpace(s[|s| - 1]) then s else RStrip(s[..|s| - 1])
  }

  /** `rstrip` keeps a prefix, drops only whitespace, and leaves no whitespace at the end. */
  lemma {:induction false} RStripSpec(s: string)
    ensures var r := RStrip(s);
      && r == s[..|r|]
      && (forall i :: |r| <= i < |s| ==> IsSpace(s[i]))
      && (r == [] || !IsSpace(r[|r| - 1]))
    decreases |s|
  {
    if s != [] && IsSpace(s[|s| - 1]) {
      RStripSpec(s[..|s| - 1]);
    }
  }

  /** `s.lstrip()`: drop leading whitespace. */
  function LStrip(s: string): (r: string)
    ensures |r| <= |s|
  {
    if s == [] || !IsSpace(s[0]) then s else LStrip(s[1..])
  }

  /** `lstrip` keeps a suffix, drops only whitespace, and leaves no whitespace at the start. */
  lemma {:induction false} LStripSpec(s: string)
    ensures var r := LStrip(s);
      && r == s[|s| - |r|..]
      && (forall i :: 0 <= i < |s| - |r| ==> IsSpace(s[i]))
      && (r == [] || !IsSpace(r[0]))
    decreases |s|
  {
    if s != [] && IsSpace(s[0]) {
      LStripSpec(s[1..]);
      assert forall i :: 1 <= i < |s| ==> s[1..][i - 1] == s[i];
    }
  }

  /** `s.strip()`. */
  function Strip(s: string): (r: string)
    ensures |r| <= |s|
  {
    LStrip(RStrip(s))
  }

  /** `strip` leaves neither leading nor trailing whitespace. */
  lemma StripSpec(s: string)
    ensures var r := Strip(s); r == [] || (!IsSpace(r[0]) && !IsSpace(r[|r| - 1]))
  {
    RStripSpec(s);
    LStripSpec(RStrip(s));
  }

  /** Stripping a space-free word padded with trailing whitespace gives the word. */
  lemma {:induction false} StripTrailing(w: string, pad: string)
    requires NoSpace(w) && forall i :: 0 <= i < |pad| ==> IsSpace(pad[i])
    ensures Strip(w + pad) == w
    decreases |pad|
  {
    if pad == [] {
      assert w + pad == w;
      StripKeepsSpaceFree(w);
    } else {
      assert (w + pad)[..|w + pad| - 1] == w + pad[..|pad| - 1];
      StripTrailing(w, pad[..|pad| - 1]);
    }
  }

  /** Right-stripping a line that ends in a non-space character and a newline drops only the newline. */
  lemma RStripNewline(w: string)
    requires w != [] && !IsSpace(w[|w| - 1])
    ensures RStrip(w + "\n") == w
  {
    assert (w + "\n")[..|w|] == w;
  }

  /** No piece of `s.split(sep)` contains the separator. */
  lemma {:induction false} SplitPiecesLackSep(s: string, sep: string)
    requires |sep| > 0
    ensures forall i :: 0 <= i < |Split(s, sep)| ==> !Occurs(Split(s, sep)[i], sep)
    decreases |s|
  {
    match Find(s, sep)
    case None =>
    case Some(i) =>
      var rest := Split(s[i + |sep|..], sep);
      SplitPiecesLackSep(s[i + |sep|..], sep);
      PrefixBeforeFindIsFree(s, sep, i);
      LacksCons(s[..i], rest, sep);
  }

  lemma LacksCons(p: string, rest: seq<string>, sep: string)
    requires !Occurs(p, sep) && forall i :: 0 <= i < |rest| ==> !Occurs(rest[i], sep)
    ensures forall i :: 0 <= i < |[p] + rest| ==> !Occurs(([p] + rest)[i], sep)
  {
    forall j | 0 <= j < |[p] + rest| ensures !Occurs(([p] + rest)[j], sep) {
      if j > 0 {
        assert ([p] + rest)[j] == rest[j - 1];
      }
    }
  }

  /** A string of digits holds no character that is not a digit. */
  lemma DigitsExclude(s: string, c: char)
    requires AllDigits(s) && !IsDigit(c)
    ensures c !in s
  {
  }

  /** `p + c + q` with `c` in neither part splits into the two parts. */
  lemma SplitTwo(p: string, c: char, q: string)
    requires c !in p && c !in q
    ensures Split(p + [c] + q, [c]) == [p, q]
  {
    var s := p + [c] + q;
    FindAfterFree(p, c, q);
    assert s[|p| + 1..] == q && s[..|p|] == p;
    OccursChar(q, c);
  }

  lemma StripKeepsSpaceFree(s: string)
    requires NoSpace(s)
    ensures Strip(s) == s
  {
    if s != [] {
      assert !IsSpace(s[|s| - 1]) && RStrip(s) == s;
      assert !IsSpace(s[0]) && LStrip(s) == s;
    }
  }

  // ---------------------------------------------------------------------
  // split with an explicit separator

  /** The separator `sep` occurs in `s` starting at index `k`. */
  predicate OccursAt(s: string, sep: string, k: nat) {
    k + |sep| <= |s| && s[k..k + |sep|] == sep
  }

  ghost predicate Occurs(s: string, sep: string) {
    exists k: nat :: OccursAt(s, sep, k)
  }

  /** The leftmost occurrence of `sep` in `s`, as `str.find` returns it. */
  function Find(s: string, sep: string): (r: Option<nat>)
    requires |sep| > 0
    ensures r.Some? ==> OccursAt(s, sep, r.value)
    ensures r.Some? ==> forall k: nat :: k < r.value ==> !OccursAt(s, sep, k)
    ensures r.None? ==> !Occurs(s, sep)
    decreases |s|
  {
    if |s| < |sep| then
      None
    else if s[..|sep|] == sep then
      Some(0)
    else
      match Find(s[1..], sep)
      case None =>
        FindShift(s, sep);
        None
      case Some(i) =>
        FindShiftSome(s, sep, i);
        Some(i + 1)
  }

  lemma FindShift(s: string, sep: string)
    requires |sep| > 0 && |s| >= |sep| && s[..|sep|] != sep && !Occurs(s[1..], sep)
    ensures !Occurs(s, sep)
  {
    forall k: nat | OccursAt(s, sep, k) ensures false {
      if k == 0 {
        assert false;
      } else {
        assert s[1..][k - 1..k - 1 + |sep|] == s[k..k + |sep|];
        assert OccursAt(s[1..], sep, k - 1);
      }
    }
  }

  lemma FindShiftSome(s: string, sep: string, i: nat)
    requires |sep| > 0 && |s| >= |sep| && s[..|sep|] != sep
    requires OccursAt(s[1..], sep, i) && forall k: nat :: k < i ==> !OccursAt(s[1..], sep, k)
    ensures OccursAt(s, sep, i + 1) && forall k: nat :: k < i + 1 ==> !OccursAt(s, sep, k)
  {
    assert s[1..][i..i + |sep|] == s[i + 1..i + 1 + |sep|];
    forall k: nat | k < i + 1 && OccursAt(s, sep, k) ensures false {
      if k == 0 {
        assert false;
      } else {
        assert s[1..][k - 1..k - 1 + |sep|] == s[k..k + |sep|];
        assert OccursAt(s[1..], sep, k - 1);
      }
    }
  }

  /** Joins the pieces with the separator between consecutive pieces. */
  function Join(parts: seq<string>, sep: string): string {
    if parts == [] then []
    else if |parts| == 1 then parts[0]
    else parts[0] + sep + Join(parts[1..], sep)
  }

  /** `s.split(sep)` for a non-empty separator. */
  function Split(s: string, sep: string): (r: seq<string>)
    requires |sep| > 0
    ensures |r| >= 1
    ensures Join(r, sep) == s
    decreases |s|
  {
    match Find(s, sep)
    case None => [s]
    case Some(i) =>
      var rest := Split(s[i + |sep|..], sep);
      JoinCons(s, sep, i, rest);
      [s[..i]] + rest
  }

  /** The piece before the leftmost separator, put in front of the pieces of the rest, joins back to `s`. */
  lemma JoinCons(s: string, sep: string, i: nat, rest: seq<string>)
    requires OccursAt(s, sep, i) && |rest| >= 1 && Join(rest, sep) == s[i + |sep|..]
    ensures Join([s[..i]] + rest, sep) == s
  {
    JoinFront(s[..i], rest, sep);
    SplitAround(s, sep, i);
  }

  /** `s` is the text before an occurrence of `sep`, `sep`, and the text after it. */
  lemma SplitAround(s: string, sep: string, i: nat)
    requires OccursAt(s, sep, i)
    ensures s == s[..i] + sep + s[i + |sep|..]
  {
    assert s == s[..i] + s[i..i + |sep|] + s[i + |sep|..];
  }

  lemma JoinFront(p: string, rest: seq<string>, sep: string)
    requires |rest| >= 1
    ensures Join([p] + rest, sep) == p + sep + Join(rest, sep)
  {
    assert ([p] + rest)[1..] == rest;
  }

  lemma PrefixBeforeFindIsFree(s: string, sep: string, i: nat)
    requires |sep| > 0 && OccursAt(s, sep, i)
    requires forall k: nat :: k < i ==> !OccursAt(s, sep, k)
    ensures !Occurs(s[..i], sep)
  {
    forall k: nat | OccursAt(s[..i], sep, k) ensures false {
      assert s[..i][k..k + |sep|] == s[k..k + |sep|];
      assert OccursAt(s, sep, k);
    }
  }

  /** The piece before the leftmost one-character separator does not contain it. */
  lemma PrefixBeforeFindFree(s: string, c: char, i: nat)
    requires Find(s, [c]) == Some(i)
    ensures c !in s[..i]
  {
    PrefixBeforeFindIsFree(s, [c], i);
    OccursChar(s[..i], c);
  }

  /** No piece `split(c)` returns contains the separator character. */
  lemma {:induction false} SplitPiecesFree(s: string, c: char)
    ensures forall i :: 0 <= i < |Split(s, [c])| ==> c !in Split(s, [c])[i]
    decreases |s|
  {
    match Find(s, [c])
    case None =>
      OccursChar(s, c);
    case Some(i) =>
      var rest := Split(s[i + 1..], [c]);
      SplitPiecesFree(s[i + 1..], c);
      PrefixBeforeFindFree(s, c, i);
      FreeCons(s[..i], rest, c);
  }

  /** A piece free of `c` in front of pieces free of it (the last one perhaps excepted). */
  lemma FreeCons(p: string, rest: seq<string>, c: char)
    requires c !in p && |rest| >= 1
    requires forall i :: 0 <= i < |rest| - 1 ==> c !in rest[i]
    ensures forall i :: 0 <= i < |rest| ==> c !in ([p] + rest)[i]
    ensures ([p] + rest)[|rest|] == rest[|rest| - 1]
  {
    forall j | 0 <= j < |rest| ensures c !in ([p] + rest)[j] {
      if j > 0 {
        assert ([p] + rest)[j] == rest[j - 1];
      }
    }
  }

  /** `s.split(sep, maxsplit)`: at most `maxsplit` splits, the tail kept whole. */
  function SplitMax(s: string, sep: string, maxsplit: nat): (r: seq<string>)
    requires |sep| > 0
    ensures 1 <= |r| <= maxsplit + 1
    ensures Join(r, sep) == s
    decreases |s|
  {
    if maxsplit == 0 then
      [s]
    else
      match Find(s, sep)
      case None => [s]
      case Some(i) =>
        var rest := SplitMax(s[i + |sep|..], sep, maxsplit - 1);
        JoinCons(s, sep, i, rest);
        [s[..i]] + rest
  }

  /**
    The first piece `split(c, maxsplit)` returns is free of the separator
    once a split is allowed, and without the separator the string stays whole.
   */
  lemma SplitMaxHead(s: string, c: char, maxsplit: nat)
    ensures c !in s ==> SplitMax(s, [c], maxsplit) == [s]
    ensures maxsplit > 0 ==> c !in SplitMax(s, [c], maxsplit)[0]
  {
    if maxsplit > 0 && c in s {
      var i := SplitMaxAtChar(s, c, maxsplit);
    } else {
      SplitMaxWhole(s, c, maxsplit);
    }
  }

  /** Where the separator character occurs, `split(c, maxsplit)` cuts at its first occurrence. */
  lemma SplitMaxAtChar(s: string, c: char, maxsplit: nat) returns (i: nat)
    requires maxsplit > 0 && c in s
    ensures i < |s| && c !in s[..i]
    ensures SplitMax(s, [c], maxsplit) == [s[..i]] + SplitMax(s[i + 1..], [c], maxsplit - 1)
  {
    OccursChar(s, c);
    i := Find(s, [c]).value;
    SplitMaxStep(s, [c], maxsplit, i);
    PrefixBeforeFindFree(s, c, i);
  }

  /** Without the separator character, or with no split allowed, the string stays whole. */
  lemma SplitMaxWhole(s: string, c: char, maxsplit: nat)
    requires maxsplit == 0 || c !in s
    ensures SplitMax(s, [c], maxsplit) == [s]
  {
    if maxsplit > 0 {
      OccursChar(s, c);
      SplitMaxNone(s, [c], maxsplit);
    }
  }

  /** One step of `split(sep, maxsplit)` at the leftmost separator. */
  lemma SplitMaxStep(s: string, sep: string, maxsplit: nat, i: nat)
    requires |sep| > 0 && maxsplit > 0 && Find(s, sep) == Some(i)
    ensures i + |sep| <= |s|
    ensures SplitMax(s, sep, maxsplit) == [s[..i]] + SplitMax(s[i + |sep|..], sep, maxsplit - 1)
  {
  }

  /** Without a separator, `split(sep, maxsplit)` keeps the string whole. */
  lemma SplitMaxNone(s: string, sep: string, maxsplit: nat)
    requires |sep| > 0 && Find(s, sep).None?
    ensures SplitMax(s, sep, maxsplit) == [s]
  {
  }

  /** A one-character separator occurs exactly where that character does. */
  lemma OccursChar(s: string, c: char)
    ensures Occurs(s, [c]) <==> c in s
  {
    if c in s {
      var k :| 0 <= k < |s| && s[k] == c;
      assert OccursAt(s, [c], k);
    }
    if Occurs(s, [c]) {
      var k: nat :| OccursAt(s, [c], k);
      assert s[k] == s[k..k + 1][0];
    }
  }

  lemma FindAfterFree(a: string, c: char, b: string)
    requires c !in a
    ensures Find(a + [c] + b, [c]) == Some(|a|)
  {
    var s := a + [c] + b;
    assert s[|a|..|a| + 1] == [c];
    assert OccursAt(s, [c], |a|);
    forall k: nat | k < |a| ensures !OccursAt(s, [c], k) {
      assert s[k..k + 1][0] == s[k] == a[k];
    }
  }

  /** Splitting on a one-character separator inverts joining pieces free of it. */
  lemma {:induction false} SplitJoin(parts: seq<string>, c: char)
    requires |parts| >= 1 && forall i :: 0 <= i < |parts| ==> c !in parts[i]
    ensures Split(Join(parts, [c]), [c]) == parts
    decreases |parts|
  {
    if |parts| == 1 {
      OccursChar(parts[0], c);
    } else {
      var rest := Join(parts[1..], [c]);
      var s := parts[0] + [c] + rest;
      FindAfterFree(parts[0], c, rest);
      SplitJoin(parts[1..], c);
      assert s[|parts[0]| + 1..] == rest;
    }
  }

  /** The same for `split(sep, maxsplit)` with no more pieces than it allows. */
  lemma {:induction false} SplitMaxJoin(parts: seq<string>, c: char, maxsplit: nat)
    requires 1 <= |parts| <= maxsplit + 1 && forall i :: 0 <= i < |parts| ==> c !in parts[i]
    ensures SplitMax(Join(parts, [c]), [c], maxsplit) == parts
    decreases |parts|
  {
    if |parts| == 1 {
      OccursChar(parts[0], c);
      SplitMaxNone(parts[0], [c], maxsplit);
    } else {
      SplitMaxJoin(parts[1..], c, maxsplit - 1);
      SplitMaxJoinStep(parts, c, maxsplit);
    }
  }

  lemma SplitMaxJoinStep(parts: seq<string>, c: char, maxsplit: nat)
    requires 2 <= |parts| && maxsplit >= 1 && c !in parts[0]
    requires SplitMax(Join(parts[1..], [c]), [c], maxsplit - 1) == parts[1..]
    ensures SplitMax(Join(parts, [c]), [c], maxsplit) == parts
  {
    var rest := Join(parts[1..], [c]);
    var s := parts[0] + [c] + rest;
    FindAfterFree(parts[0], c, rest);
    SplitMaxStep(s, [c], maxsplit, |parts[0]|);
    assert s[|parts[0]| + 1..] == rest && s[..|parts[0]|] == parts[0];
    assert parts == [parts[0]] + parts[1..];
  }

  lemma SplitSingle(s: string, c: char)
    ensures |Split(s, [c])| == 1 <==> c !in s
  {
    OccursChar(s, c);
    SplitPiecesFree(s, c);
  }

  // ---------------------------------------------------------------------
  // split on runs of whitespace

  /** The leading run of non-whitespace characters of `s`. */
  function Word(s: string): (w: string)
    ensures |w| <= |s| && w == s[..|w|] && NoSpace(w)
    ensures |w| == |s| || IsSpace(s[|w|])
    ensures s != [] && !IsSpace(s[0]) ==> w != []
  {
    if s == [] || IsSpace(s[0]) then [] else [s[0]] + Word(s[1..])
  }

  /** `s.split()`: the maximal runs of non-whitespace characters. */
  function SplitWs(s: string): seq<string>
    decreases |s|
  {
    var t := LStrip(s);
    if t == [] then []
    else
      var w := Word(t);
      [w] + SplitWs(t[|w|..])
  }

  lemma WordsCons(w: string, rest: seq<string>)
    requires w != [] && NoSpace(w)
    requires forall i :: 0 <= i < |rest| ==> rest[i] != [] && NoSpace(rest[i])
    ensures forall i :: 0 <= i < |[w] + rest| ==> ([w] + rest)[i] != [] && NoSpace(([w] + rest)[i])
  {
  }

  /** Every piece of `s.split()` is a non-empty run free of whitespace. */
  lemma {:induction false} SplitWsWords(s: string)
    ensures forall i :: 0 <= i < |SplitWs(s)| ==> SplitWs(s)[i] != [] && NoSpace(SplitWs(s)[i])
    decreases |s|
  {
    var t := LStrip(s);
    LStripSpec(s);
    if t != [] {
      var w := Word(t);
      SplitWsWords(t[|w|..]);
      WordsCons(w, SplitWs(t[|w|..]));
    }
  }

  function Concat(parts: seq<string>): string {
    if parts == [] then [] else parts[0] + Concat(parts[1..])
  }

  /** `s` with every whitespace character removed. */
  function Squeeze(s: string): (r: string) {
    if s == [] then []
    else if IsSpace(s[0]) then Squeeze(s[1..])
    else [s[0]] + Squeeze(s[1..])
  }

  lemma SqueezeAppend(a: string, b: string)
    ensures Squeeze(a + b) == Squeeze(a) + Squeeze(b)
  {
    if a != [] {
      assert (a + b)[1..] == a[1..] + b;
      SqueezeAppend(a[1..], b);
    } else {
      assert a + b == b;
    }
  }

  lemma SqueezeSpaces(s: string)
    requires forall i :: 0 <= i < |s| ==> IsSpace(s[i])
    ensures Squeeze(s) == []
  {
    if s != [] { SqueezeSpaces(s[1..]); }
  }

  lemma SqueezeNoSpace(s: string)
    requires NoSpace(s)
    ensures Squeeze(s) == s
  {
    if s != [] { SqueezeNoSpace(s[1..]); }
  }

  /** Splitting on whitespace loses exactly the whitespace. */
  lemma {:induction false} SplitWsLosesOnlySpace(s: string)
    ensures Concat(SplitWs(s)) == Squeeze(s)
    decreases |s|
  {
    var t := LStrip(s);
    SqueezeLStrip(s);
    if t != [] {
      var w := Word(t);
      var rest := t[|w|..];
      SqueezeWord(t);
      SplitWsLosesOnlySpace(rest);
      assert SplitWs(s) == [w] + SplitWs(rest);
      assert ([w] + SplitWs(rest))[1..] == SplitWs(rest);
    }
  }

  lemma SqueezeLStrip(s: string)
    ensures Squeeze(s) == Squeeze(LStrip(s))
  {
    var t := LStrip(s);
    LStripSpec(s);
    var lead := s[..|s| - |t|];
    assert s == lead + t;
    SqueezeAppend(lead, t);
    SqueezeSpaces(lead);
  }

  lemma SqueezeWord(t: string)
    ensures Squeeze(t) == Word(t) + Squeeze(t[|Word(t)|..])
  {
    var w := Word(t);
    var rest := t[|w|..];
    assert t == w + rest;
    SqueezeAppend(w, rest);
    SqueezeNoSpace(w);
  }

  // ---------------------------------------------------------------------
  // int() on a string, and the decimal rendering it inverts

  function DigitValue(c: char): nat
    requires IsDigit(c)
  {
    (c as int) - ('0' as int)
  }

  function DigitChar(d: nat): (c: char)
    requires d < 10
    ensures IsDigit(c) && DigitValue(c) == d
  {
    (('0' as int) + d) as char
  }

  /** The value of a string of decimal digits, most significant first. */
  function DigitsValue(s: string): nat
    requires AllDigits(s)
  {
    if s == [] then 0 else DigitsValue(s[..|s| - 1]) * 10 + DigitValue(s[|s| - 1])
  }

  /** `str(n)` for a natural number. */
  function NatToString(n: nat): (s: string)
    ensures s != [] && AllDigits(s)
  {
    if n < 10 then [DigitChar(n)] else NatToString(n / 10) + [DigitChar(n % 10)]
  }

  lemma {:induction false} NatToStringRoundTrip(n: nat)
    ensures DigitsValue(NatToString(n)) == n
  {
    var s := NatToString(n);
    if n >= 10 {
      NatToStringRoundTrip(n / 10);
      assert s[..|s| - 1] == NatToString(n / 10);
    }
  }

  /** `int(s)` on a string: surrounding whitespace, an optional sign, then
      at least one decimal digit. Anything else is Python's ValueError. */
  function ParseInt(s: string): (r: Option<int>)
    ensures r.Some? ==> exists ds :: ds != [] && AllDigits(ds) &&
                          (r.value == DigitsValue(ds) || r.value + DigitsValue(ds) == 0)
  {
    var t := Strip(s);
    if t != [] && (t[0] == '-' || t[0] == '+') then
      var ds := t[1..];
      if ds != [] && AllDigits(ds) then
        var v: int := DigitsValue(ds);
        Some(if t[0] == '-' then -v else v)
      else None
    else if t != [] && AllDigits(t) then
      Some(DigitsValue(t))
    else
      None
  }

  /** `int(s)` raising `err` where Python raises ValueError. */
  function IntOr<E>(s: string, err: E): (r: Result<int, E>)
    ensures r.Ok? <==> ParseInt(s).Some?
    ensures r.Ok? ==> r.value == ParseInt(s).value
    ensures r.Err? ==> r.error == err
  {
    match ParseInt(s)
    case None => Err(err)
    case Some(v) => Ok(v)
  }

  lemma ParseIntOfNatToString(n: nat)
    ensures ParseInt(NatToString(n)) == Some(n)
  {
    var s := NatToString(n);
    assert NoSpace(s) by {
      forall i | 0 <= i < |s| ensures !IsSpace(s[i]) { assert IsDigit(s[i]); }
    }
    StripKeepsSpaceFree(s);
    NatToStringRoundTrip(n);
  }

  /** An unsigned digit string parses to a non-negative value. */
  lemma ParseIntOfDigits(s: string)
    requires s != [] && AllDigits(s)
    ensures ParseInt(s) == Some(DigitsValue(s))
  {
    assert NoSpace(s) by {
      forall i | 0 <= i < |s| ensures !IsSpace(s[i]) { assert IsDigit(s[i]); }
    }
    StripKeepsSpaceFree(s);
  }

  // ---------------------------------------------------------------------
  // count

  /** `s.count(c)` for a single character. */
  function CountChar(s: string, c: char): (n: nat)
    ensures n <= |s|
    ensures n == 0 <==> c !in s
  {
    if s == [] then 0 else (if s[0] == c then 1 else 0) + CountChar(s[1..], c)
  }
}
