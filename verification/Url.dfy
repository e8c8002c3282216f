/** Percent coding (rust/crates/thttpd-http/src/url.rs, dirlist.rs; sections 2.1 and 2.3 of RFC 3986)
    and path normalization. Text is its UTF-8 bytes. */
module Url {
  import opened Common

  const PERCENT: Byte := 37
  const PLUS: Byte := 43
  const SPACE: Byte := 32
  const DOT: Byte := 46
  const SLASH: Byte := 47

  // ----- Percent coding. -----

  function FromHex(b: Byte): Option<Byte> {
    if 48 <= b <= 57 then Some(b - 48)
    else if 97 <= b <= 102 then Some(b - 97 + 10)
    else if 65 <= b <= 70 then Some(b - 65 + 10)
    else None
  }

  function UpperHex(n: Byte): (h: Byte)
    requires n < 16
    ensures FromHex(h) == Some(n)
  {
    if n < 10 then 48 + n else 55 + n
  }

  predicate IsUnreserved(b: Byte) {
    65 <= b <= 90 || 97 <= b <= 122 || 48 <= b <= 57 || b == DOT || b == 45 || b == 95 || b == 126
  }

  function EncodedByte(b: Byte): seq<Byte> {
    if IsUnreserved(b) then [b] else [PERCENT, UpperHex(b / 16), UpperHex(b % 16)]
  }

  function Encoded(s: seq<Byte>): seq<Byte> {
    if s == [] then [] else EncodedByte(s[0]) + Encoded(s[1..])
  }

  lemma EncodedFirst(s: seq<Byte>, b: Byte, piece: seq<Byte>, rest: seq<Byte>)
    requires s == [b] + rest && piece == EncodedByte(b)
    ensures Encoded(s) == piece + Encoded(rest)
  {
    assert s[1..] == rest;
  }

  lemma Reassociate(a: seq<Byte>, b: seq<Byte>, c: seq<Byte>)
    ensures a + (b + c) == (a + b) + c
  {}

  method UrlEncode(s: seq<Byte>) returns (out: seq<Byte>)
    ensures out == Encoded(s)
  {
    out := [];
    assert s[0..] == s;
    for i := 0 to |s|
      invariant Encoded(s) == out + Encoded(s[i..])
    {
      var b := s[i];
      var piece := [b];
      if !(65 <= b <= 90 || 97 <= b <= 122 || 48 <= b <= 57 || b == DOT || b == 45 || b == 95 || b == 126) {
        piece := [PERCENT, UpperHex(b / 16), UpperHex(b % 16)];
      }
      EncodedFirst(s[i..], b, piece, s[i + 1..]);
      Reassociate(out, piece, Encoded(s[i + 1..]));
      out := out + piece;
    }
    assert s[|s|..] == [];
  }

  /** A `%` followed by two hex digits. */
  predicate IsEscape(s: seq<Byte>) {
    |s| > 2 && s[0] == PERCENT && FromHex(s[1]).Some? && FromHex(s[2]).Some?
  }

  function HexPair(hi: Byte, lo: Byte): Byte
    requires hi < 16 && lo < 16
  {
    hi * 16 + lo
  }

  /** The first decoded byte and how many bytes it was written with. */
  function Head(s: seq<Byte>): (h: (Byte, nat))
    requires s != []
    ensures 1 <= h.1 <= |s|
  {
    if IsEscape(s) then (HexPair(FromHex(s[1]).value, FromHex(s[2]).value), 3)
    else if s[0] == PLUS then (SPACE, 1)
    else (s[0], 1)
  }

  function Decoded(s: seq<Byte>): seq<Byte> {
    if s == [] then [] else [Head(s).0] + Decoded(s[Head(s).1..])
  }

  method PercentDecode(bytes: seq<Byte>) returns (result: seq<Byte>)
    ensures result == Decoded(bytes)
  {
    result := [];
    var i := 0;
    assert bytes[0..] == bytes;
    while i < |bytes|
      invariant 0 <= i <= |bytes| && Decoded(bytes) == result + Decoded(bytes[i..])
    {
      ghost var rest := bytes[i..];
      var b, step := bytes[i], 1;
      if bytes[i] == PERCENT && i + 2 < |bytes| {
        var hi, lo := FromHex(bytes[i + 1]), FromHex(bytes[i + 2]);
        if hi.Some? && lo.Some? {
          b, step := HexPair(hi.value, lo.value), 3;
        }
      } else if bytes[i] == PLUS {
        b := SPACE;
      }
      assert (b, step) == Head(rest);
      assert rest[step..] == bytes[i + step..];
      Reassociate(result, [b], Decoded(bytes[i + step..]));
      result, i := result + [b], i + step;
    }
    assert bytes[i..] == [];
  }

  lemma EncodedHead(b: Byte, t: seq<Byte>)
    ensures Head(EncodedByte(b) + t) == (b, |EncodedByte(b)|)
  {
    if !IsUnreserved(b) {
      assert HexPair(b / 16, b % 16) == b;
    }
  }

  /** Decoding an encoded name gives the name back, for every byte string. */
  lemma {:induction false} DecodeUndoesEncode(s: seq<Byte>)
    ensures Decoded(Encoded(s)) == s
  {
    if s != [] {
      DecodeUndoesEncode(s[1..]);
      EncodedHead(s[0], Encoded(s[1..]));
      var e := Encoded(s);
      assert e[|EncodedByte(s[0])|..] == Encoded(s[1..]);
    }
  }

  /** Encoded text is made of unreserved bytes and `%` escapes only. */
  lemma {:induction false} EncodedIsSafe(s: seq<Byte>, i: nat)
    requires i < |Encoded(s)|
    ensures var b := Encoded(s)[i];
      65 <= b <= 90 || 97 <= b <= 122 || 48 <= b <= 57 || b in {45, 46, 95, 126} || b == 37
    decreases |s|
  {
    var n := |EncodedByte(s[0])|;
    if i >= n {
      EncodedIsSafe(s[1..], i - n);
      assert Encoded(s)[i] == Encoded(s[1..])[i - n];
    }
  }

  const CAPITAL_DIGITS := "0123456789ABCDEF"
  const SMALL_DIGITS := "0123456789abcdef"

  /** The byte is the hexadecimal digit of that value, in either case. */
  predicate IsDigit(b: Byte, value: Byte) {
    value < 16 && b as char in {CAPITAL_DIGITS[value], SMALL_DIGITS[value]}
  }

  /** The bytes read as hexadecimal are the digits, whichever their case, each for its value. */
  lemma HexDigits(b: Byte, value: Byte)
    ensures FromHex(b) == Some(value) <==> IsDigit(b, value)
  {
    if value < 10 {
      assert CAPITAL_DIGITS[value] == SMALL_DIGITS[value] == '0' + value as char;
    } else if value < 16 {
      assert CAPITAL_DIGITS[value] == 'A' + (value - 10) as char;
      assert SMALL_DIGITS[value] == 'a' + (value - 10) as char;
    }
  }

  /** `%` and two hexadecimal digits, in either case, are read as the byte they spell. */
  lemma EscapesDecode(n: Byte, hi: Byte, lo: Byte, rest: seq<Byte>)
    requires IsDigit(hi, n / 16) && IsDigit(lo, n % 16)
    ensures Decoded([37, hi, lo] + rest) == [n] + Decoded(rest)
  {
    var s := [37, hi, lo] + rest;
    HexDigits(hi, n / 16);
    HexDigits(lo, n % 16);
    assert HexPair(n / 16, n % 16) == n;
    assert s[3..] == rest;
  }

  /** A plus sign is read as a space. */
  lemma PlusIsSpace(rest: seq<Byte>)
    ensures Decoded([43] + rest) == [32] + Decoded(rest)
  {
    assert ([43] + rest)[1..] == rest;
  }

  /** A byte that needs an escape is written with capital digits. */
  lemma EscapesAreCapital(b: Byte)
    requires !IsUnreserved(b)
    ensures EncodedByte(b) == [37, CAPITAL_DIGITS[b / 16] as Byte, CAPITAL_DIGITS[b % 16] as Byte]
  {
    HexDigits(UpperHex(b / 16), b / 16);
    HexDigits(UpperHex(b % 16), b % 16);
  }

  /** A `%` that no two hexadecimal digits follow stands for itself. */
  lemma StrayPercentStays(rest: seq<Byte>)
    requires |rest| < 2 || (forall n :: !IsDigit(rest[0], n)) || (forall n :: !IsDigit(rest[1], n))
    ensures Decoded([37] + rest) == [37] + Decoded(rest)
  {
    var s := [37] + rest;
    assert s[1..] == rest && (|rest| >= 2 ==> s[1] == rest[0] && s[2] == rest[1]);
    if IsEscape(s) {
      HexDigits(s[1], FromHex(s[1]).value);
      HexDigits(s[2], FromHex(s[2]).value);
    }
    assert !IsEscape(s) && Head(s) == (37, 1);
  }

  /** Text without `%` and `+` is read as it stands. */
  lemma {:induction false} PlainTextDecodes(s: seq<Byte>)
    requires 37 !in s && 43 !in s
    ensures Decoded(s) == s
  {
    if s != [] {
      PlainTextDecodes(s[1..]);
    }
  }

  // ----- Path normalization. -----

  datatype Kind = Stay | Up | Name

  function KindOf(part: seq<Byte>): Kind {
    if part == [] || part == [DOT] then Stay else if part == [DOT, DOT] then Up else Name
  }

  function Delta(k: Kind): int {
    match k case Stay => 0 case Up => -1 case Name => 1
  }

  /** Empty components and `.` stay, `..` goes up, everything else is a name to go down to. */
  lemma KindsAre(part: seq<Byte>)
    ensures KindOf(part) == Up <==> part == [46, 46]
    ensures KindOf(part) == Name <==> part != [] && part != [46] && part != [46, 46]
    ensures Delta(KindOf(part)) == if part == [46, 46] then -1 else if part == [] || part == [46] then 0 else 1
  {}

  /** How far the components `i..j` lead down the tree. */
  function Depth(parts: seq<seq<Byte>>, i: nat, j: nat): int
    requires j <= |parts|
    decreases j
  {
    if i >= j then 0 else Depth(parts, i, j - 1) + Delta(KindOf(parts[j - 1]))
  }

  function DepthPast(parts: seq<seq<Byte>>, i: nat, j: nat): int
    requires j <= |parts|
  {
    Depth(parts, i + 1, j)
  }

  /** Some prefix climbs above the root. */
  ghost predicate Escapes(parts: seq<seq<Byte>>, n: nat)
    requires n <= |parts|
  {
    exists j :: 0 <= j <= n && Depth(parts, 0, j) < 0
  }

  /** The name at `i` is not climbed out of by anything that follows. */
  ghost predicate Survives(parts: seq<seq<Byte>>, i: nat, n: nat)
    requires n <= |parts|
  {
    i < n && KindOf(parts[i]) == Name && forall j :: i < j <= n ==> DepthPast(parts, i, j) >= 0
  }

  /** The walk: the positions on the stack after the first `n` components, or none once it pops an empty stack. */
  function Walk(parts: seq<seq<Byte>>, n: nat): (r: Option<seq<nat>>)
    requires n <= |parts|
    ensures r.Some? ==> forall t :: 0 <= t < |r.value| ==> r.value[t] < n
  {
    if n == 0 then Some([])
    else
      var before := Walk(parts, n - 1);
      if before.None? then None
      else
        var st := before.value;
        match KindOf(parts[n - 1])
        case Stay => before
        case Up => if st == [] then None else Some(st[..|st| - 1])
        case Name => Some(st + [n - 1])
  }

  /** What the stack positions mean: in order, exactly the surviving names, each as deep as its place. */
  ghost predicate StackOk(parts: seq<seq<Byte>>, n: nat, st: seq<nat>)
    requires n <= |parts|
  {
    && !Escapes(parts, n) && Depth(parts, 0, n) == |st|
    && (forall t :: 0 <= t < |st| ==> Survives(parts, st[t], n) && DepthPast(parts, st[t], n) == |st| - 1 - t)
    && (forall t, u :: 0 <= t < u < |st| ==> st[t] < st[u])
    && (forall i :: 0 <= i < n && Survives(parts, i, n) ==> i in st)
  }

  lemma SurvivesStep(parts: seq<seq<Byte>>, i: nat, n: nat)
    requires n < |parts| && i < n
    ensures Survives(parts, i, n + 1) <==> Survives(parts, i, n) && DepthPast(parts, i, n + 1) >= 0
  {}

  lemma EscapesStep(parts: seq<seq<Byte>>, n: nat)
    requires n < |parts|
    ensures Escapes(parts, n + 1) <==> Escapes(parts, n) || Depth(parts, 0, n + 1) < 0
  {}

  lemma PushKeeps(parts: seq<seq<Byte>>, n: nat, st: seq<nat>)
    requires n < |parts| && StackOk(parts, n, st) && KindOf(parts[n]) == Name
    ensures StackOk(parts, n + 1, st + [n])
  {
    EscapesStep(parts, n);
    var st' := st + [n];
    forall i | 0 <= i < n ensures Survives(parts, i, n + 1) <==> Survives(parts, i, n) {
      SurvivesStep(parts, i, n);
    }
    assert Survives(parts, n, n + 1);
    assert forall i :: i in st' <==> i in st || i == n;
  }

  lemma StayKeeps(parts: seq<seq<Byte>>, n: nat, st: seq<nat>)
    requires n < |parts| && StackOk(parts, n, st) && KindOf(parts[n]) == Stay
    ensures StackOk(parts, n + 1, st)
  {
    EscapesStep(parts, n);
    forall i | 0 <= i < n ensures Survives(parts, i, n + 1) <==> Survives(parts, i, n) {
      SurvivesStep(parts, i, n);
    }
  }

  lemma PopKeeps(parts: seq<seq<Byte>>, n: nat, st: seq<nat>)
    requires n < |parts| && StackOk(parts, n, st) && KindOf(parts[n]) == Up && st != []
    ensures StackOk(parts, n + 1, st[..|st| - 1])
  {
    EscapesStep(parts, n);
    var st', top := st[..|st| - 1], st[|st| - 1];
    forall t | 0 <= t < |st'| ensures Survives(parts, st'[t], n + 1) && DepthPast(parts, st'[t], n + 1) == |st'| - 1 - t {
      SurvivesStep(parts, st[t], n);
    }
    forall i | 0 <= i < n + 1 && Survives(parts, i, n + 1) ensures i in st' {
      SurvivesStep(parts, i, n);
      var t :| 0 <= t < |st| && st[t] == i;
      assert t < |st'| && st'[t] == i;
    }
  }

  /** The walk fails exactly when some prefix climbs above the root, and otherwise keeps exactly the
      names that nothing later climbs out of, in order. */
  lemma {:induction false} WalkMeaning(parts: seq<seq<Byte>>, n: nat)
    requires n <= |parts|
    ensures Walk(parts, n).None? <==> Escapes(parts, n)
    ensures Walk(parts, n).Some? ==> StackOk(parts, n, Walk(parts, n).value)
  {
    if n > 0 {
      WalkMeaning(parts, n - 1);
      WalkGoesOn(parts, n - 1);
    }
  }

  lemma WalkGoesOn(parts: seq<seq<Byte>>, n: nat)
    requires n < |parts| && (Walk(parts, n).None? <==> Escapes(parts, n))
    requires Walk(parts, n).Some? ==> StackOk(parts, n, Walk(parts, n).value)
    ensures Walk(parts, n + 1).None? <==> Escapes(parts, n + 1)
    ensures Walk(parts, n + 1).Some? ==> StackOk(parts, n + 1, Walk(parts, n + 1).value)
  {
    EscapesStep(parts, n);
    if Walk(parts, n).Some? {
      WalkStep(parts, n, Walk(parts, n).value);
    }
  }

  lemma WalkStep(parts: seq<seq<Byte>>, n: nat, st: seq<nat>)
    requires n < |parts| && Walk(parts, n) == Some(st) && StackOk(parts, n, st)
    ensures Walk(parts, n + 1).None? ==> Depth(parts, 0, n + 1) < 0
    ensures Walk(parts, n + 1).Some? ==> StackOk(parts, n + 1, Walk(parts, n + 1).value)
  {
    match KindOf(parts[n])
    case Stay => StayKeeps(parts, n, st);
    case Name => PushKeeps(parts, n, st);
    case Up =>
      if st != [] {
        PopKeeps(parts, n, st);
      }
  }

  /** The components at the given positions. */
  function At(parts: seq<seq<Byte>>, st: seq<nat>): (cs: seq<seq<Byte>>)
    requires forall t :: 0 <= t < |st| ==> st[t] < |parts|
    ensures |cs| == |st|
  {
    seq(|st|, t requires 0 <= t < |st| => parts[st[t]])
  }

  predicate DoubleSlash(path: seq<Byte>) {
    exists i :: 0 <= i < |path| - 1 && path[i] == SLASH && path[i + 1] == SLASH
  }

  function Rendered(cs: seq<seq<Byte>>): seq<Byte> {
    if cs == [] then [SLASH] else [SLASH] + Join(cs, SLASH)
  }

  function Normalized(path: seq<Byte>): Option<seq<Byte>> {
    var parts := Split(path, SLASH);
    if DoubleSlash(path) || Walk(parts, |parts|).None? then None
    else Some(Rendered(At(parts, Walk(parts, |parts|).value)))
  }

  method NormalizePath(path: seq<Byte>) returns (r: Option<seq<Byte>>)
    ensures r == Normalized(path)
  {
    if DoubleSlash(path) {
      return None;
    }
    var components: seq<seq<Byte>> := [];
    var parts := Split(path, SLASH);
    for n := 0 to |parts|
      invariant Walk(parts, n).Some? && components == At(parts, Walk(parts, n).value)
    {
      ghost var st := Walk(parts, n).value;
      var part := parts[n];
      if part == [] || part == [DOT] {
      } else if part == [DOT, DOT] {
        if components == [] {
          WalkFailsForGood(parts, n + 1, |parts|);
          return None;
        }
        components := components[..|components| - 1];
      } else {
        components := components + [part];
      }
    }
    return Some(Rendered(components));
  }

  lemma {:induction false} WalkFailsForGood(parts: seq<seq<Byte>>, n: nat, m: nat)
    requires n <= m <= |parts| && Walk(parts, n).None?
    ensures Walk(parts, m).None?
  {
    if n < m {
      WalkFailsForGood(parts, n, m - 1);
    }
  }

  predicate Clean(cs: seq<seq<Byte>>) {
    forall i :: 0 <= i < |cs| ==> KindOf(cs[i]) == Name && SLASH !in cs[i]
  }

  /** A normalized path has no empty, `.` or `..` component. */
  lemma NormalizedIsClean(path: seq<Byte>)
    requires Normalized(path).Some?
    ensures exists cs :: Clean(cs) && Normalized(path).value == Rendered(cs)
    ensures var parts := Split(path, 47);
      var names := At(parts, Walk(parts, |parts|).value);
      forall i :: 0 <= i < |names| ==> names[i] != [] && names[i] != [46] && names[i] != [46, 46] && 47 !in names[i]
  {
    var parts := Split(path, SLASH);
    WalkMeaning(parts, |parts|);
    assert Clean(At(parts, Walk(parts, |parts|).value));
  }

  /** The normalized text: a slash, and behind it the surviving names with single slashes in between. */
  lemma NormalizedReads(path: seq<Byte>)
    requires Normalized(path).Some?
    ensures var parts := Split(path, 47);
      var names := At(parts, Walk(parts, |parts|).value);
      if names == [] then Normalized(path).value == [47]
      else Normalized(path).value[0] == 47 && Split(Normalized(path).value[1..], 47) == names
  {
    var parts := Split(path, SLASH);
    var names := At(parts, Walk(parts, |parts|).value);
    WalkMeaning(parts, |parts|);
    if names != [] {
      SplitOfJoin(names, SLASH);
      assert Normalized(path).value[1..] == Join(names, SLASH);
    }
  }

  lemma {:induction false} CleanHasNoDoubleSlash(cs: seq<seq<Byte>>)
    requires Clean(cs)
    ensures !DoubleSlash(Rendered(cs))
  {
    if cs != [] {
      var t := [SLASH] + cs[0];
      if |cs| > 1 {
        CleanHasNoDoubleSlash(cs[1..]);
        assert Rendered(cs) == t + Rendered(cs[1..]);
      } else {
        assert Rendered(cs) == t;
      }
    }
  }

  lemma {:induction false} WalkOfClean(cs: seq<seq<Byte>>, parts: seq<seq<Byte>>, n: nat)
    requires Clean(cs) && parts == [[]] + cs && n <= |cs|
    ensures Walk(parts, n + 1) == Some(seq(n, t => t + 1))
  {
    if n == 0 {
      assert Walk(parts, 1) == Walk(parts, 0);
    } else {
      WalkOfClean(cs, parts, n - 1);
      assert parts[n] == cs[n - 1];
      assert seq(n - 1, t => t + 1) + [n] == seq(n, t => t + 1);
    }
  }

  lemma RootIsFixed()
    ensures Normalized([SLASH]) == Some([SLASH])
  {
    var parts := Split([SLASH], SLASH);
    assert [SLASH] == [] + [SLASH] + [];
    SplitOfPrefix([], [], SLASH);
    assert parts == [[], []] && KindOf(parts[0]) == Stay && KindOf(parts[1]) == Stay;
    assert Walk(parts, 0) == Some([]) && Walk(parts, 1) == Walk(parts, 0) && Walk(parts, 2) == Walk(parts, 1);
    assert At(parts, []) == [];
  }

  lemma CleanIsFixed(cs: seq<seq<Byte>>)
    requires Clean(cs)
    ensures Normalized(Rendered(cs)) == Some(Rendered(cs))
  {
    if cs == [] {
      RootIsFixed();
    } else {
      var path := Rendered(cs);
      CleanHasNoDoubleSlash(cs);
      CleanSplits(cs);
      var parts := Split(path, SLASH);
      WalkOfClean(cs, parts, |cs|);
      assert At(parts, seq(|cs|, t => t + 1)) == cs;
    }
  }

  lemma CleanSplits(cs: seq<seq<Byte>>)
    requires Clean(cs) && cs != []
    ensures Split(Rendered(cs), SLASH) == [[]] + cs
  {
    assert Rendered(cs) == [] + [SLASH] + Join(cs, SLASH);
    SplitOfPrefix([], Join(cs, SLASH), SLASH);
    SplitOfJoin(cs, SLASH);
  }

  /** Normalizing twice changes nothing more. */
  lemma NormalizedIsFixed(path: seq<Byte>)
    requires Normalized(path).Some?
    ensures Normalized(Normalized(path).value) == Normalized(path)
  {
    NormalizedIsClean(path);
    var cs :| Clean(cs) && Normalized(path).value == Rendered(cs);
    CleanIsFixed(cs);
  }

  /** Normalization fails exactly on a double slash or a path that climbs above the root. */
  lemma NormalizationFailsIff(path: seq<Byte>)
    ensures Normalized(path).None? <==> DoubleSlash(path) || Escapes(Split(path, SLASH), |Split(path, SLASH)|)
  {
    WalkMeaning(Split(path, SLASH), |Split(path, SLASH)|);
  }
}
