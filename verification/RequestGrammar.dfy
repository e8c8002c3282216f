/** What the recogniser's verdicts mean, byte for byte. */
module RequestGrammar {
  import opened Common
  import opened RequestFsm

  // ----- The grammar. -----

  predicate Plain(w: seq<Byte>) { forall i :: 0 <= i < |w| ==> !Blank(w[i]) && !Eol(w[i]) }
  predicate Blanks(b: seq<Byte>) { forall i :: 0 <= i < |b| ==> Blank(b[i]) }
  predicate OneLine(l: seq<Byte>) { forall i :: 0 <= i < |l| ==> !Eol(l[i]) }

  /** Words and the blanks between them; the first word may be empty, as the source allows. */
  datatype Parts = Parts(w1: seq<Byte>, b1: seq<Byte>, w2: seq<Byte>, b2: seq<Byte>, w3: seq<Byte>, b3: seq<Byte>)

  predicate WellFormed(p: Parts) {
    Plain(p.w1) && Blanks(p.b1) && Plain(p.w2) && Blanks(p.b2) && Plain(p.w3) && Blanks(p.b3)
  }

  function Text(p: Parts): seq<Byte> { p.w1 + p.b1 + p.w2 + p.b2 + p.w3 + p.b3 }

  predicate IsSimple(p: Parts, l: seq<Byte>) {
    WellFormed(p) && Text(p) == l && p.b1 != [] && p.w2 != [] && p.b2 == p.w3 == p.b3 == []
  }

  predicate IsFull(p: Parts, l: seq<Byte>) {
    WellFormed(p) && Text(p) == l && p.b1 != [] && p.w2 != [] && p.b2 != [] && p.w3 != []
  }

  /** Two words and no trailing blank. */
  ghost predicate SimpleLine(l: seq<Byte>) { exists p :: IsSimple(p, l) }

  /** Three words and optional trailing blanks. */
  ghost predicate FullLine(l: seq<Byte>) { exists p :: IsFull(p, l) }

  /** Byte `back` places before the end of `p` is `c`. */
  predicate EndsWith(p: seq<Byte>, back: nat, c: Byte) {
    back < |p| && p[|p| - 1 - back] == c
  }

  /** The blank line that ends the headers, in the three spellings the source takes. */
  predicate Terminated(p: seq<Byte>) {
    || (EndsWith(p, 1, LF) && EndsWith(p, 0, LF))
    || (EndsWith(p, 1, CR) && EndsWith(p, 0, CR))
    || (EndsWith(p, 3, CR) && EndsWith(p, 2, LF) && EndsWith(p, 1, CR) && EndsWith(p, 0, LF))
  }

  /** An HTTP/0.9 request is complete at the line end right after its second word. */
  ghost predicate AcceptsSimple(p: seq<Byte>) {
    p != [] && Eol(p[|p| - 1]) && SimpleLine(p[..|p| - 1])
  }

  /** A full request is complete when the bytes after its request line end in a blank line. */
  ghost predicate AcceptsFull(p: seq<Byte>) {
    exists n :: FullAt(p, n) && Terminated(p)
  }

  ghost predicate FullAt(p: seq<Byte>, n: nat) {
    n < |p| && FullLine(p[..n]) && Eol(p[n])
  }

  ghost predicate Accepts(p: seq<Byte>) { AcceptsSimple(p) || AcceptsFull(p) }

  /** Byte `i` makes the request line malformed: it ends a line of another shape, or starts a fourth word. */
  ghost predicate BadAt(buf: seq<Byte>, i: nat) {
    && i < |buf| && OneLine(buf[..i])
    && if Eol(buf[i]) then !SimpleLine(buf[..i]) && !FullLine(buf[..i])
       else !Blank(buf[i]) && FullLine(buf[..i]) && Blank(buf[i - 1])
  }

  // ----- The automaton on concatenations. -----

  function State(p: seq<Byte>): ParseState { Run(FirstWord, p) }

  lemma {:induction false} RunAppends(s: ParseState, a: seq<Byte>, b: seq<Byte>)
    ensures Run(s, a + b) == Run(Run(s, a), b)
    decreases |b|
  {
    if b == [] {
      assert a + b == a;
    } else {
      RunAppends(s, a, b[..|b| - 1]);
      assert (a + b)[..|a + b| - 1] == a + b[..|b| - 1];
    }
  }

  lemma {:induction false} FinalStays(s: ParseState, b: seq<Byte>)
    requires Final(s)
    ensures Run(s, b) == s
    decreases |b|
  {
    if b != [] {
      FinalStays(s, b[..|b| - 1]);
    }
  }

  lemma FinalPrefix(p: seq<Byte>, j: nat)
    requires j <= |p| && Final(State(p[..j]))
    ensures State(p) == State(p[..j])
  {
    assert p == p[..j] + p[j..];
    RunAppends(FirstWord, p[..j], p[j..]);
    FinalStays(State(p[..j]), p[j..]);
  }

  lemma StepState(p: seq<Byte>)
    requires p != []
    ensures State(p) == Next(State(p[..|p| - 1]), p[|p| - 1])
  {}

  // ----- Request lines. -----

  /** Inside a word the automaton stays; at its first byte it leaves the blanks before it. */
  lemma {:induction false} RunsWord(s: ParseState, w: seq<Byte>)
    requires Plain(w)
    requires s.FirstWord? || s.SecondWord? || s.ThirdWord? || (w != [] && (s.FirstWs? || s.SecondWs?))
    ensures Run(s, w) == match s case FirstWs => SecondWord case SecondWs => ThirdWord case _ => s
    decreases |w|
  {
    if |w| == 1 {
      assert w[..0] == [] && Run(s, w) == Next(s, w[0]);
    } else if |w| > 1 {
      RunsWord(s, w[..|w| - 1]);
    }
  }

  lemma {:induction false} RunsBlanks(s: ParseState, b: seq<Byte>)
    requires Blanks(b) && b != [] && (s.FirstWord? || s.SecondWord? || s.ThirdWord?)
    ensures Run(s, b) == match s case FirstWord => FirstWs case SecondWord => SecondWs case _ => ThirdWs
    decreases |b|
  {
    if |b| == 1 {
      assert b[..0] == [] && Run(s, b) == Next(s, b[0]);
    } else {
      RunsBlanks(s, b[..|b| - 1]);
    }
  }

  lemma SimpleLineState(p: Parts, l: seq<Byte>)
    requires IsSimple(p, l)
    ensures State(l) == SecondWord
  {
    assert l == (p.w1 + p.b1) + p.w2;
    RunAppends(FirstWord, p.w1 + p.b1, p.w2);
    RunAppends(FirstWord, p.w1, p.b1);
    RunsWord(FirstWord, p.w1);
    RunsBlanks(FirstWord, p.b1);
    RunsWord(FirstWs, p.w2);
  }

  lemma FullLineState(p: Parts, l: seq<Byte>)
    requires IsFull(p, l)
    ensures State(l) == if p.b3 == [] then ThirdWord else ThirdWs
  {
    var head := p.w1 + p.b1 + p.w2;
    SimpleLineState(p.(b2 := [], w3 := [], b3 := []), head);
    assert l == ((head + p.b2) + p.w3) + p.b3;
    RunAppends(FirstWord, (head + p.b2) + p.w3, p.b3);
    RunAppends(FirstWord, head + p.b2, p.w3);
    RunAppends(FirstWord, head, p.b2);
    RunsBlanks(SecondWord, p.b2);
    RunsWord(SecondWs, p.w3);
    if p.b3 != [] {
      RunsBlanks(ThirdWord, p.b3);
    }
  }

  /** How a line splits into words when the automaton is in state `s` after it. */
  predicate Explains(s: ParseState, p: Parts, l: seq<Byte>) {
    && WellFormed(p) && Text(p) == l
    && match s
       case FirstWord => p.b1 == p.w2 == p.b2 == p.w3 == p.b3 == []
       case FirstWs => p.b1 != [] && p.w2 == p.b2 == p.w3 == p.b3 == []
       case SecondWord => p.b1 != [] && p.w2 != [] && p.b2 == p.w3 == p.b3 == []
       case SecondWs => p.b1 != [] && p.w2 != [] && p.b2 != [] && p.w3 == p.b3 == []
       case ThirdWord => p.b1 != [] && p.w2 != [] && p.b2 != [] && p.w3 != [] && p.b3 == []
       case ThirdWs => p.b1 != [] && p.w2 != [] && p.b2 != [] && p.w3 != [] && p.b3 != []
       case _ => false
  }

  function Extended(s: ParseState, p: Parts, c: Byte): Parts {
    match s
    case FirstWord => if Blank(c) then p.(b1 := [c]) else p.(w1 := p.w1 + [c])
    case FirstWs => if Blank(c) then p.(b1 := p.b1 + [c]) else p.(w2 := [c])
    case SecondWord => if Blank(c) then p.(b2 := [c]) else p.(w2 := p.w2 + [c])
    case SecondWs => if Blank(c) then p.(b2 := p.b2 + [c]) else p.(w3 := [c])
    case ThirdWord => if Blank(c) then p.(b3 := [c]) else p.(w3 := p.w3 + [c])
    case _ => p.(b3 := p.b3 + [c])
  }

  lemma ExtendedExplains(s: ParseState, p: Parts, l: seq<Byte>, c: Byte)
    requires Explains(s, p, l) && !Eol(c) && !Final(Next(s, c))
    ensures Explains(Next(s, c), Extended(s, p, c), l + [c])
  {
    assert Text(Extended(s, p, c)) == l + [c];
  }

  /** A line that is not rejected so far splits into words as its state says. */
  lemma {:induction false} LineSplits(l: seq<Byte>) returns (p: Parts)
    requires OneLine(l) && !Final(State(l))
    ensures Explains(State(l), p, l)
    decreases |l|
  {
    if l == [] {
      p := Parts([], [], [], [], [], []);
    } else {
      var init, c := l[..|l| - 1], l[|l| - 1];
      p := LineSplits(init);
      ExtendedExplains(State(init), p, init, c);
      p := Extended(State(init), p, c);
      assert init + [c] == l;
    }
  }

  /** On a line without rejection, the state tells exactly which shape the line has. */
  lemma LineShapes(l: seq<Byte>)
    requires OneLine(l)
    ensures SimpleLine(l) <==> State(l) == SecondWord
    ensures FullLine(l) <==> State(l) == ThirdWord || State(l) == ThirdWs
    ensures FullLine(l) ==> l != [] && (State(l) == ThirdWs <==> Blank(l[|l| - 1]))
  {
    if SimpleLine(l) {
      var p :| IsSimple(p, l);
      SimpleLineState(p, l);
    }
    if FullLine(l) {
      var p :| IsFull(p, l);
      FullLineState(p, l);
      var tail := if p.b3 == [] then p.w3 else p.b3;
      assert l[|l| - 1] == tail[|tail| - 1];
    }
    if !Final(State(l)) {
      var p := LineSplits(l);
      if State(l) == SecondWord {
        assert IsSimple(p, l);
      }
      if State(l) == ThirdWord || State(l) == ThirdWs {
        assert IsFull(p, l);
      }
    }
  }

  lemma ShapesAreLines(l: seq<Byte>)
    ensures SimpleLine(l) || FullLine(l) ==> OneLine(l)
  {
    if SimpleLine(l) {
      var p :| IsSimple(p, l);
      PartsAreOneLine(p);
    }
    if FullLine(l) {
      var p :| IsFull(p, l);
      PartsAreOneLine(p);
    }
  }

  lemma PartsAreOneLine(p: Parts)
    requires WellFormed(p)
    ensures OneLine(Text(p))
  {
    OneLineAppends(p.w1, p.b1);
    OneLineAppends(p.w1 + p.b1, p.w2);
    OneLineAppends(p.w1 + p.b1 + p.w2, p.b2);
    OneLineAppends(p.w1 + p.b1 + p.w2 + p.b2, p.w3);
    OneLineAppends(p.w1 + p.b1 + p.w2 + p.b2 + p.w3, p.b3);
  }

  lemma OneLineAppends(a: seq<Byte>, b: seq<Byte>)
    requires OneLine(a) && OneLine(b)
    ensures OneLine(a + b)
  {}

  // ----- After the request line. -----

  /** The header state, read off the last bytes. */
  function TailState(p: seq<Byte>): ParseState {
    if EndsWith(p, 0, CR) then
      if EndsWith(p, 1, LF) && EndsWith(p, 2, CR) then Crlfcr else Cr
    else if EndsWith(p, 0, LF) then
      if EndsWith(p, 1, CR) then Crlf else Lf
    else Line
  }

  lemma EndShifts(p: seq<Byte>, c: Byte, back: nat, b: Byte)
    ensures EndsWith(p + [c], back + 1, b) <==> EndsWith(p, back, b)
    ensures EndsWith(p + [c], 0, b) <==> b == c
  {}

  lemma TailStep(p: seq<Byte>, c: Byte)
    requires p != [] && !Terminated(p)
    ensures Next(TailState(p), c) == if Terminated(p + [c]) then GotRequest else TailState(p + [c])
  {
    EndShifts(p, c, 0, CR);
    EndShifts(p, c, 0, LF);
    EndShifts(p, c, 1, CR);
    EndShifts(p, c, 1, LF);
    EndShifts(p, c, 2, CR);
  }

  /** After a full request line and until the first blank line, the state is read off the last bytes. */
  lemma {:induction false} TailStates(p: seq<Byte>, n: nat)
    requires FullAt(p, n) && forall j :: n < j < |p| ==> !Terminated(p[..j])
    ensures State(p) == if Terminated(p) then GotRequest else TailState(p)
    decreases |p|
  {
    var init, c := p[..|p| - 1], p[|p| - 1];
    assert p == init + [c];
    ShapesAreLines(p[..n]);
    if |init| == n {
      LineShapes(init);
      assert forall i :: 0 <= i < n ==> p[i] == p[..n][i];
    } else {
      assert init[..n] == p[..n];
      assert forall j :: n < j < |init| ==> init[..j] == p[..j];
      TailStates(init, n);
      assert p[..|init|] == init;
      TailStep(init, c);
    }
  }

  // ----- The verdicts. -----

  ghost predicate FirstFinal(p: seq<Byte>) {
    Final(State(p)) && forall j :: 0 <= j < |p| ==> !Final(State(p[..j]))
  }

  lemma {:induction false} ScanFindsFirstFinal(buf: seq<Byte>, idx: nat)
    requires idx <= |buf| && !Final(State(buf[..idx]))
    ensures var (v, i, s) := ScanFrom(buf, idx, |buf|, State(buf[..idx]));
      && (v.Got? ==> idx < i <= |buf| && State(buf[..i]) == GotRequest && forall j :: idx <= j < i ==> !Final(State(buf[..j])))
      && (v.Bad? ==> idx <= i < |buf| && State(buf[..i + 1]) == Bogus && forall j :: idx <= j <= i ==> !Final(State(buf[..j])))
      && (v.NoRequest? ==> forall j :: idx <= j <= |buf| ==> !Final(State(buf[..j])))
    decreases |buf| - idx
  {
    if idx < |buf| {
      assert buf[..idx + 1][..idx] == buf[..idx];
      StepState(buf[..idx + 1]);
      if !Final(State(buf[..idx + 1])) {
        ScanFindsFirstFinal(buf, idx + 1);
      }
    }
  }

  /** A prefix whose proper prefixes are undecided is undecided or decided as the grammar says. */
  lemma Meaning(p: seq<Byte>)
    requires p != [] && forall j :: 0 <= j < |p| ==> !Final(State(p[..j]))
    ensures State(p) == GotRequest ==> Accepts(p)
    ensures State(p) == Bogus ==> BadAt(p, |p| - 1)
  {
    var init, c := p[..|p| - 1], p[|p| - 1];
    if OneLine(init) {
      LineShapes(init);
      if State(init) == ThirdWs {
        assert p[|p| - 2] == init[|init| - 1];
      }
    } else {
      var n := FirstEol(init);
      HeaderPrefix(p, n);
    }
  }

  lemma FirstEol(l: seq<Byte>) returns (n: nat)
    requires !OneLine(l)
    ensures n < |l| && Eol(l[n]) && OneLine(l[..n])
  {
    n := 0;
    while !Eol(l[n])
      invariant n < |l| && forall i :: 0 <= i < n ==> !Eol(l[i])
      invariant exists i :: n <= i < |l| && Eol(l[i])
      decreases |l| - n
    {
      n := n + 1;
    }
  }

  /** If the line ended at `n` and nothing was decided since, it was a full request line. */
  lemma HeaderPrefix(p: seq<Byte>, n: nat)
    requires n + 1 < |p| && Eol(p[n]) && OneLine(p[..n])
    requires forall j :: 0 <= j < |p| ==> !Final(State(p[..j]))
    ensures FullAt(p, n) && State(p) != Bogus && (State(p) == GotRequest <==> Terminated(p))
  {
    LineShapes(p[..n]);
    var parts := LineSplits(p[..n]);
    assert p[..n + 1][..n] == p[..n];
    StepState(p[..n + 1]);
    assert !Final(State(p[..n + 1]));
    NotTerminatedYet(p, n, |p| - 1);
    TailStates(p, n);
  }

  lemma {:induction false} NotTerminatedYet(p: seq<Byte>, n: nat, m: nat)
    requires FullAt(p, n) && n < m < |p| && forall j :: 0 <= j < |p| ==> !Final(State(p[..j]))
    ensures forall j :: n < j <= m ==> !Terminated(p[..j])
    decreases m
  {
    if m > n + 1 {
      NotTerminatedYet(p, n, m - 1);
    }
    var q := p[..m];
    assert q[..n] == p[..n];
    assert forall j :: n < j < m ==> q[..j] == p[..j];
    TailStates(q, n);
  }

  /** What the grammar accepts first, the automaton accepts there and not before. */
  lemma AcceptsIsFirstFinal(p: seq<Byte>)
    requires Accepts(p) && forall j :: 0 <= j < |p| ==> !Accepts(p[..j])
    ensures FirstFinal(p) && State(p) == GotRequest
  {
    if AcceptsSimple(p) {
      var l := p[..|p| - 1];
      ShapesAreLines(l);
      LineShapes(l);
      forall j | 0 <= j < |p| ensures !Final(State(p[..j])) {
        assert l[..j] == p[..j];
        if Final(State(l[..j])) {
          FinalPrefix(l, j);
        }
      }
    } else {
      var n :| FullAt(p, n) && Terminated(p);
      FullIsFirstFinal(p, n);
    }
  }

  /** No header prefix of a request that is not accepted earlier ends in a blank line. */
  lemma NotTerminatedEarlier(p: seq<Byte>, n: nat, j: nat)
    requires FullAt(p, n) && n < j < |p| && !Accepts(p[..j])
    ensures !Terminated(p[..j]) && FullAt(p[..j], n)
  {
    assert p[..j][..n] == p[..n];
    assert FullAt(p[..j], n);
    assert !AcceptsFull(p[..j]);
  }

  lemma LineUndecided(p: seq<Byte>, n: nat, j: nat)
    requires FullAt(p, n) && j <= n
    ensures !Final(State(p[..j]))
  {
    var l := p[..n];
    ShapesAreLines(l);
    LineShapes(l);
    assert l[..j] == p[..j];
    if Final(State(l[..j])) {
      FinalPrefix(l, j);
    }
  }

  lemma HeaderUndecided(p: seq<Byte>, n: nat, j: nat)
    requires FullAt(p, n) && n < j < |p| && forall i :: 0 <= i < |p| ==> !Accepts(p[..i])
    ensures !Final(State(p[..j]))
  {
    var q := p[..j];
    NotTerminatedEarlier(p, n, j);
    forall i | n < i < j ensures !Terminated(q[..i]) {
      NotTerminatedEarlier(p, n, i);
      assert q[..i] == p[..i];
    }
    TailStates(q, n);
  }

  lemma FullIsFirstFinal(p: seq<Byte>, n: nat)
    requires FullAt(p, n) && Terminated(p) && forall j :: 0 <= j < |p| ==> !Accepts(p[..j])
    ensures FirstFinal(p) && State(p) == GotRequest
  {
    forall j | n < j < |p| ensures !Terminated(p[..j]) {
      NotTerminatedEarlier(p, n, j);
    }
    TailStates(p, n);
    forall j | 0 <= j < |p| ensures !Final(State(p[..j])) {
      if j <= n {
        LineUndecided(p, n, j);
      } else {
        HeaderUndecided(p, n, j);
      }
    }
  }

  lemma GotOnlyIf(buf: seq<Byte>)
    requires ScanFrom(buf, 0, |buf|, FirstWord).0.Got?
    ensures var i := ScanFrom(buf, 0, |buf|, FirstWord).1;
      Accepts(buf[..i]) && forall j :: 0 <= j < i ==> !Accepts(buf[..j])
  {
    var i := ScanFrom(buf, 0, |buf|, FirstWord).1;
    assert buf[..0] == [];
    ScanFindsFirstFinal(buf, 0);
    var p := buf[..i];
    assert forall j :: 0 <= j < i ==> p[..j] == buf[..j];
    Meaning(p);
    forall j | 0 <= j < i ensures !Accepts(buf[..j]) {
      FirstAccepted(buf, j, i);
    }
  }

  lemma GotIf(buf: seq<Byte>, i: nat)
    requires i <= |buf| && Accepts(buf[..i]) && forall j :: 0 <= j < i ==> !Accepts(buf[..j])
    ensures ScanFrom(buf, 0, |buf|, FirstWord).0.Got? && ScanFrom(buf, 0, |buf|, FirstWord).1 == i
  {
    var p := buf[..i];
    assert forall j :: 0 <= j < i ==> p[..j] == buf[..j];
    AcceptsIsFirstFinal(p);
    assert i != 0;
    FirstFinalIsUnique(buf, i);
  }

  /** A request is reported complete at `i` exactly when the first `i` bytes are the first accepted prefix:
      word, blanks, word and a line end, or a three-word line and the first blank line after it. */
  lemma GotExactly(buf: seq<Byte>, i: nat)
    ensures var (v, at, _) := ScanFrom(buf, 0, |buf|, FirstWord);
      v.Got? && at == i <==>
      i <= |buf| && Accepts(buf[..i]) && forall j :: 0 <= j < i ==> !Accepts(buf[..j])
  {
    if ScanFrom(buf, 0, |buf|, FirstWord).0.Got? {
      GotOnlyIf(buf);
    }
    if i <= |buf| && Accepts(buf[..i]) && forall j :: 0 <= j < i ==> !Accepts(buf[..j]) {
      GotIf(buf, i);
    }
  }

  /** Nothing is accepted before the first decision. */
  lemma FirstAccepted(buf: seq<Byte>, j: nat, at: nat)
    requires j < at <= |buf| && forall k :: 0 <= k < at ==> !Final(State(buf[..k]))
    ensures !Accepts(buf[..j])
    decreases j
  {
    forall k | 0 <= k < j ensures !Accepts(buf[..k]) {
      FirstAccepted(buf, k, at);
    }
    if Accepts(buf[..j]) {
      assert forall k :: 0 <= k < j ==> buf[..j][..k] == buf[..k];
      AcceptsIsFirstFinal(buf[..j]);
    }
  }

  lemma FirstFinalIsUnique(buf: seq<Byte>, i: nat)
    requires 0 < i <= |buf| && FirstFinal(buf[..i])
    ensures var (v, at, _) := ScanFrom(buf, 0, |buf|, FirstWord);
      && (State(buf[..i]) == GotRequest ==> v.Got? && at == i)
      && (State(buf[..i]) == Bogus ==> v.Bad? && at + 1 == i)
  {
    var (v, at, _) := ScanFrom(buf, 0, |buf|, FirstWord);
    assert buf[..0] == [];
    ScanFindsFirstFinal(buf, 0);
    forall j | 0 <= j < i ensures !Final(State(buf[..j])) {
      assert buf[..i][..j] == buf[..j];
    }
  }

  lemma NotBadYet(buf: seq<Byte>, j: nat)
    requires j < |buf| && !Final(State(buf[..j + 1]))
    ensures !BadAt(buf, j)
  {
    if BadAt(buf, j) {
      BadIsDecisive(buf, j);
    }
  }

  lemma NoneBadBefore(buf: seq<Byte>, i: nat)
    requires i < |buf| && forall j :: 0 <= j <= i ==> !Final(State(buf[..j]))
    ensures forall j :: 0 <= j < i ==> !BadAt(buf, j)
  {
    forall j | 0 <= j < i ensures !BadAt(buf, j) {
      NotBadYet(buf, j);
    }
  }

  lemma BadScan(buf: seq<Byte>) returns (i: nat)
    requires ScanFrom(buf, 0, |buf|, FirstWord).0.Bad?
    ensures i == ScanFrom(buf, 0, |buf|, FirstWord).1 && i < |buf| && State(buf[..i + 1]) == Bogus
    ensures forall j :: 0 <= j <= i ==> !Final(State(buf[..j]))
  {
    assert buf[..0] == [];
    ScanFindsFirstFinal(buf, 0);
    i := ScanFrom(buf, 0, |buf|, FirstWord).1;
  }

  lemma BadOnlyIf(buf: seq<Byte>) returns (i: nat)
    requires ScanFrom(buf, 0, |buf|, FirstWord).0.Bad?
    ensures i == ScanFrom(buf, 0, |buf|, FirstWord).1 && BadAt(buf, i) && forall j :: 0 <= j < i ==> !BadAt(buf, j)
  {
    i := BadScan(buf);
    FirstBogusIsBad(buf, i);
    NoneBadBefore(buf, i);
  }

  lemma FirstBogusIsBad(buf: seq<Byte>, i: nat)
    requires i < |buf| && State(buf[..i + 1]) == Bogus && forall j :: 0 <= j <= i ==> !Final(State(buf[..j]))
    ensures BadAt(buf, i)
  {
    var p := buf[..i + 1];
    forall j | 0 <= j < |p| ensures !Final(State(p[..j])) {
      assert p[..j] == buf[..j];
    }
    Meaning(p);
    BadOfPrefix(buf, i + 1, i);
  }

  lemma BadIf(buf: seq<Byte>, i: nat)
    requires BadAt(buf, i) && forall j :: 0 <= j < i ==> !BadAt(buf, j)
    ensures ScanFrom(buf, 0, |buf|, FirstWord).0.Bad? && ScanFrom(buf, 0, |buf|, FirstWord).1 == i
  {
    FirstBadIsFirstFinal(buf, i);
    FirstFinalIsUnique(buf, i + 1);
  }

  /** A request is reported malformed at `i` exactly when byte `i` is the first to break the line's shape. */
  lemma BadExactly(buf: seq<Byte>, i: nat)
    ensures var (v, at, _) := ScanFrom(buf, 0, |buf|, FirstWord);
      v.Bad? && at == i <==> BadAt(buf, i) && forall j :: 0 <= j < i ==> !BadAt(buf, j)
  {
    if ScanFrom(buf, 0, |buf|, FirstWord).0.Bad? {
      var first := BadOnlyIf(buf);
    }
    if BadAt(buf, i) && forall j :: 0 <= j < i ==> !BadAt(buf, j) {
      BadIf(buf, i);
    }
  }

  lemma BadOfPrefix(buf: seq<Byte>, n: nat, i: nat)
    requires i < n <= |buf|
    ensures BadAt(buf[..n], i) <==> BadAt(buf, i)
  {
    assert buf[..n][..i] == buf[..i];
  }

  /** At a malformed byte the automaton has rejected, here or earlier. */
  lemma BadIsDecisive(buf: seq<Byte>, j: nat)
    requires BadAt(buf, j)
    ensures State(buf[..j + 1]) == Bogus
  {
    var l := buf[..j];
    assert buf[..j + 1][..j] == l;
    LineShapes(l);
    StepState(buf[..j + 1]);
    if !Final(State(l)) {
      if !Eol(buf[j]) {
        assert l[|l| - 1] == buf[j - 1];
      } else {
        var p := LineSplits(l);
      }
    } else {
      LineNeverAccepts(l);
    }
  }

  lemma {:induction false} LineNeverAccepts(l: seq<Byte>)
    requires OneLine(l)
    ensures State(l) != GotRequest
    decreases |l|
  {
    if l != [] {
      LineNeverAccepts(l[..|l| - 1]);
    }
  }

  lemma FirstBadIsFirstFinal(buf: seq<Byte>, i: nat)
    requires BadAt(buf, i) && forall j :: 0 <= j < i ==> !BadAt(buf, j)
    ensures FirstFinal(buf[..i + 1]) && State(buf[..i + 1]) == Bogus
  {
    BadIsDecisive(buf, i);
    UndecidedBefore(buf, i, i);
    var p := buf[..i + 1];
    forall j | 0 <= j < |p| ensures !Final(State(p[..j])) {
      assert p[..j] == buf[..j];
    }
  }

  lemma {:induction false} UndecidedBefore(buf: seq<Byte>, i: nat, m: nat)
    requires m <= i <= |buf| && OneLine(buf[..i]) && forall j :: 0 <= j < i ==> !BadAt(buf, j)
    ensures forall j :: 0 <= j <= m ==> !Final(State(buf[..j]))
  {
    if m > 0 {
      UndecidedBefore(buf, i, m - 1);
      var p := buf[..m];
      assert forall j :: 0 <= j < m ==> p[..j] == buf[..j];
      assert forall j :: 0 <= j < m ==> p[j] == buf[..i][j];
      LineNeverAccepts(p);
      Meaning(p);
      BadOfPrefix(buf, m, m - 1);
    } else {
      assert buf[..0] == [];
    }
  }
}
