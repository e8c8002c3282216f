/** Shell-style matching (rust/crates/thttpd-match): the backtracking byte matcher against
    the meaning of a pattern as a list of tokens, each taking one piece of the name. */
module Glob {
  import opened Common

  const QUESTION: Byte := 63
  const STAR: Byte := 42
  const SLASH: Byte := 47
  const BAR: Byte := 124

  datatype Token = AnyByte | SegmentRun | AnyRun | Literal(b: Byte)

  /** A pattern without `|`, read from the left: two stars in a row are one token. */
  function Tokens(p: seq<Byte>): (ts: seq<Token>)
  {
    if p == [] then []
    else if p[0] == QUESTION then [AnyByte] + Tokens(p[1..])
    else if p[0] == STAR then
      if |p| > 1 && p[1] == STAR then [AnyRun] + Tokens(p[2..]) else [SegmentRun] + Tokens(p[1..])
    else [Literal(p[0])] + Tokens(p[1..])
  }

  /** How a pattern is read: `?`, `**`, `*` and every other byte. */
  lemma TokensRead(b: Byte, rest: seq<Byte>)
    ensures Tokens([63] + rest) == [AnyByte] + Tokens(rest)
    ensures Tokens([42, 42] + rest) == [AnyRun] + Tokens(rest)
    ensures rest == [] || rest[0] != 42 ==> Tokens([42] + rest) == [SegmentRun] + Tokens(rest)
    ensures b != 63 && b != 42 ==> Tokens([b] + rest) == [Literal(b)] + Tokens(rest)
  {
    assert ([63] + rest)[1..] == ([42] + rest)[1..] == ([b] + rest)[1..] == ([42, 42] + rest)[2..] == rest;
  }

  /** What a token takes: one byte, a run without slashes, any run, or itself. */
  lemma TokensTake(piece: seq<Byte>, b: Byte)
    ensures Takes(AnyByte, piece) <==> |piece| == 1
    ensures Takes(SegmentRun, piece) <==> 47 !in piece
    ensures Takes(AnyRun, piece)
    ensures Takes(Literal(b), piece) <==> piece == [b]
  {}

  /** Which pieces a token may take. */
  predicate Takes(t: Token, piece: seq<Byte>) {
    match t
    case AnyByte => |piece| == 1
    case SegmentRun => SLASH !in piece
    case AnyRun => true
    case Literal(b) => piece == [b]
  }

  ghost predicate CutsInto(ts: seq<Token>, name: seq<Byte>, pieces: seq<seq<Byte>>) {
    && |pieces| == |ts|
    && Concat(pieces) == name
    && forall i :: 0 <= i < |ts| ==> Takes(ts[i], pieces[i])
  }

  /** The meaning of a token list: the name can be cut into consecutive pieces, one per token. */
  ghost predicate Denotes(ts: seq<Token>, name: seq<Byte>) {
    exists pieces :: CutsInto(ts, name, pieces)
  }

  /** The meaning of a whole pattern: some alternative between the bars denotes the name. */
  ghost predicate Matches(pattern: seq<Byte>, name: seq<Byte>) {
    exists alternative :: IsAlternative(pattern, alternative) && Denotes(Tokens(alternative), name)
  }

  ghost predicate IsAlternative(pattern: seq<Byte>, alternative: seq<Byte>) {
    exists i :: 0 <= i < |Split(pattern, BAR)| && Split(pattern, BAR)[i] == alternative
  }

  lemma DenotesNil(name: seq<Byte>)
    ensures Denotes([], name) <==> name == []
  {
    if name == [] {
      assert CutsInto([], name, []);
    }
  }

  lemma DenotesCut(ts: seq<Token>, name: seq<Byte>, k: nat)
    requires ts != [] && k <= |name|
    requires Takes(ts[0], name[..k]) && Denotes(ts[1..], name[k..])
    ensures Denotes(ts, name)
  {
    var pieces :| CutsInto(ts[1..], name[k..], pieces);
    var whole := [name[..k]] + pieces;
    assert whole[1..] == pieces;
    assert Concat(whole) == name[..k] + name[k..] == name;
    assert forall i :: 0 < i < |ts| ==> ts[i] == ts[1..][i - 1] && whole[i] == pieces[i - 1];
    assert CutsInto(ts, name, whole);
  }

  lemma FirstCut(ts: seq<Token>, name: seq<Byte>) returns (k: nat)
    requires ts != [] && Denotes(ts, name)
    ensures k <= |name| && Takes(ts[0], name[..k]) && Denotes(ts[1..], name[k..])
  {
    var pieces :| CutsInto(ts, name, pieces);
    k := |pieces[0]|;
    assert name == pieces[0] + Concat(pieces[1..]);
    assert name[..k] == pieces[0] && name[k..] == Concat(pieces[1..]);
    assert forall i :: 0 <= i < |ts| - 1 ==> ts[1..][i] == ts[i + 1] && pieces[1..][i] == pieces[i + 1];
    assert CutsInto(ts[1..], name[k..], pieces[1..]);
  }

  lemma NoCut(ts: seq<Token>, name: seq<Byte>)
    requires ts != []
    requires forall k :: 0 <= k <= |name| && Takes(ts[0], name[..k]) ==> !Denotes(ts[1..], name[k..])
    ensures !Denotes(ts, name)
  {
    if Denotes(ts, name) {
      var k := FirstCut(ts, name);
    }
  }

  /** A token that takes exactly one byte moves both cursors by one. */
  lemma DenotesOneByte(ts: seq<Token>, name: seq<Byte>)
    requires ts != [] && (ts[0].AnyByte? || ts[0].Literal?)
    ensures Denotes(ts, name) <==> name != [] && Takes(ts[0], name[..1]) && Denotes(ts[1..], name[1..])
  {
    if Denotes(ts, name) {
      var k := FirstCut(ts, name);
      assert |name[..k]| == 1;
    } else if name != [] && Takes(ts[0], name[..1]) && Denotes(ts[1..], name[1..]) {
      DenotesCut(ts, name, 1);
    }
  }

  /** Byte-oriented matcher for one alternative: sound, complete and terminating. */
  method MatchSingle(pattern: seq<Byte>, filename: seq<Byte>) returns (r: bool)
    ensures r <==> Denotes(Tokens(pattern), filename)
    decreases |pattern|, 1
  {
    var pi, fi := 0, 0;
    assert pattern[0..] == pattern && filename[0..] == filename;
    while pi < |pattern|
      invariant 0 <= pi <= |pattern| && 0 <= fi <= |filename|
      invariant Denotes(Tokens(pattern), filename) <==> Denotes(Tokens(pattern[pi..]), filename[fi..])
    {
      ghost var rest, name := pattern[pi..], filename[fi..];
      ghost var ts := Tokens(rest);
      if pattern[pi] == STAR {
        if pi + 1 < |pattern| && pattern[pi + 1] == STAR {
          assert ts == [AnyRun] + Tokens(rest[2..]) && rest[2..] == pattern[pi + 2..];
          r := TryFrom(AnyRun, pattern, pi + 2, filename, fi);
        } else {
          assert ts == [SegmentRun] + Tokens(rest[1..]) && rest[1..] == pattern[pi + 1..];
          r := TryFrom(SegmentRun, pattern, pi + 1, filename, fi);
        }
        return;
      }
      assert rest[1..] == pattern[pi + 1..];
      assert ts[1..] == Tokens(pattern[pi + 1..]);
      DenotesOneByte(ts, name);
      if fi >= |filename| || (pattern[pi] != QUESTION && pattern[pi] != filename[fi]) {
        return false;
      }
      assert name[..1] == [filename[fi]] && name[1..] == filename[fi + 1..];
      pi, fi := pi + 1, fi + 1;
    }
    DenotesNil(filename[fi..]);
    return fi == |filename|;
  }

  /** The two star branches: try the rest of the pattern at every position the star may reach. */
  method TryFrom(star: Token, pattern: seq<Byte>, pi: nat, filename: seq<Byte>, fi: nat) returns (r: bool)
    requires star.AnyRun? || star.SegmentRun?
    requires 0 < pi <= |pattern| && fi <= |filename|
    ensures r <==> Denotes([star] + Tokens(pattern[pi..]), filename[fi..])
    decreases |pattern|, 0
  {
    ghost var ts, name := [star] + Tokens(pattern[pi..]), filename[fi..];
    assert ts[1..] == Tokens(pattern[pi..]);
    if pi >= |pattern| {
      r := star.AnyRun? || SLASH !in filename[fi..];
      DenotesNil([]);
      assert name[..|name|] == name && name[|name|..] == [];
      if r {
        DenotesCut(ts, name, |name|);
      } else {
        forall k | 0 <= k <= |name| && Denotes([], name[k..]) ensures !Takes(star, name[..k]) {
          DenotesNil(name[k..]);
          assert name[..k] == name;
        }
        NoCut(ts, name);
      }
      return;
    }
    var tryFi := fi;
    while tryFi <= |filename|
      invariant fi <= tryFi <= |filename| + 1
      invariant star.SegmentRun? && tryFi <= |filename| && tryFi > fi ==> SLASH !in filename[fi..tryFi - 1]
      invariant forall j :: fi <= j < tryFi && Takes(star, filename[fi..j]) ==> !Denotes(ts[1..], filename[j..])
    {
      if star.SegmentRun? && tryFi > fi && filename[tryFi - 1] == SLASH {
        assert forall j :: tryFi <= j <= |filename| ==> filename[fi..j][tryFi - 1 - fi] == SLASH;
        break;
      }
      assert tryFi > fi ==> filename[fi..tryFi] == filename[fi..tryFi - 1] + [filename[tryFi - 1]];
      assert name[..tryFi - fi] == filename[fi..tryFi] && name[tryFi - fi..] == filename[tryFi..];
      var hit := MatchSingle(pattern[pi..], filename[tryFi..]);
      if hit {
        DenotesCut(ts, name, tryFi - fi);
        return true;
      }
      tryFi := tryFi + 1;
    }
    assert forall k :: 0 <= k <= |name| ==> name[..k] == filename[fi..fi + k] && name[k..] == filename[fi + k..];
    NoCut(ts, name);
    return false;
  }

  /** The entry point: any alternative may match. */
  method MatchPattern(pattern: seq<Byte>, filename: seq<Byte>) returns (r: bool)
    ensures r <==> Matches(pattern, filename)
  {
    var subs := Split(pattern, BAR);
    for i := 0 to |subs|
      invariant forall j :: 0 <= j < i ==> !Denotes(Tokens(subs[j]), filename)
    {
      var hit := MatchSingle(subs[i], filename);
      if hit {
        assert IsAlternative(pattern, subs[i]);
        return true;
      }
    }
    return false;
  }
}
