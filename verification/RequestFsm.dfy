/** The incremental request recogniser (rust/crates/thttpd-http/src/parse.rs) against the request
    grammar it stands for: Simple-Request and Full-Request of section 5 of RFC 1945, read leniently. */
module RequestFsm {
  import opened Common

  const SP: Byte := 32
  const HT: Byte := 9
  const CR: Byte := 13
  const LF: Byte := 10

  datatype ParseState =
    | FirstWord | FirstWs | SecondWord | SecondWs | ThirdWord | ThirdWs
    | Lf | Cr | Crlf | Crlfcr | Line | GotRequest | Bogus

  datatype Verdict = NoRequest | Got | Bad

  predicate Blank(c: Byte) { c == SP || c == HT }
  predicate Eol(c: Byte) { c == CR || c == LF }

  /** Blanks are space and tab; lines end in CR or LF. */
  lemma ControlBytes(c: Byte)
    ensures Blank(c) <==> c == 32 || c == 9
    ensures Eol(c) <==> c == 13 || c == 10
    ensures CR == 13 && LF == 10
  {}

  /** The transition table. `GotRequest` and `Bogus` are final. */
  function Next(s: ParseState, c: Byte): ParseState {
    match s
    case FirstWord => if Blank(c) then FirstWs else if Eol(c) then Bogus else FirstWord
    case FirstWs => if Blank(c) then FirstWs else if Eol(c) then Bogus else SecondWord
    case SecondWord => if Blank(c) then SecondWs else if Eol(c) then GotRequest else SecondWord
    case SecondWs => if Blank(c) then SecondWs else if Eol(c) then Bogus else ThirdWord
    case ThirdWord => if Blank(c) then ThirdWs else if c == CR then Cr else if c == LF then Lf else ThirdWord
    case ThirdWs => if Blank(c) then ThirdWs else if c == CR then Cr else if c == LF then Lf else Bogus
    case Lf => if c == CR then Cr else if c == LF then GotRequest else Line
    case Cr => if c == LF then Crlf else if c == CR then GotRequest else Line
    case Crlf => if c == CR then Crlfcr else if c == LF then GotRequest else Line
    case Line => if c == CR then Cr else if c == LF then Lf else Line
    case Crlfcr => if Eol(c) then GotRequest else Line
    case GotRequest => GotRequest
    case Bogus => Bogus
  }

  predicate Final(s: ParseState) { s.GotRequest? || s.Bogus? }

  /** The state after the first `n` bytes, ignoring early stops. */
  function Run(s: ParseState, buf: seq<Byte>): ParseState {
    if buf == [] then s else Next(Run(s, buf[..|buf| - 1]), buf[|buf| - 1])
  }

  // ----- The scanner, as the source runs it. -----

  /** Scan `buf[idx..limit]` from `initial`; `Bad` leaves the index at the offending byte, `Got` after it. */
  method Scan(buf: seq<Byte>, idx: nat, limit: nat, initial: ParseState)
    returns (verdict: Verdict, checked: nat, state: ParseState)
    requires idx <= limit <= |buf|
    ensures (verdict, checked, state) == ScanFrom(buf, idx, limit, initial)
  {
    checked, state := idx, initial;
    while checked < limit
      invariant idx <= checked <= limit
      invariant ScanFrom(buf, idx, limit, initial) == ScanFrom(buf, checked, limit, state)
    {
      var c := buf[checked];
      match state {
        case FirstWord =>
          if c == SP || c == HT { state := FirstWs; }
          else if c == CR || c == LF { return Bad, checked, Bogus; }
        case FirstWs =>
          if c == CR || c == LF { return Bad, checked, Bogus; }
          else if c != SP && c != HT { state := SecondWord; }
        case SecondWord =>
          if c == SP || c == HT { state := SecondWs; }
          else if c == CR || c == LF { return Got, checked + 1, GotRequest; }
        case SecondWs =>
          if c == CR || c == LF { return Bad, checked, Bogus; }
          else if c != SP && c != HT { state := ThirdWord; }
        case ThirdWord =>
          if c == SP || c == HT { state := ThirdWs; }
          else if c == CR { state := Cr; }
          else if c == LF { state := Lf; }
        case ThirdWs =>
          if c == CR { state := Cr; }
          else if c == LF { state := Lf; }
          else if c != SP && c != HT { return Bad, checked, Bogus; }
        case Lf =>
          if c == LF { return Got, checked + 1, GotRequest; }
          state := if c == CR then Cr else Line;
        case Cr =>
          if c == CR { return Got, checked + 1, GotRequest; }
          state := if c == LF then Crlf else Line;
        case Crlf =>
          if c == LF { return Got, checked + 1, GotRequest; }
          state := if c == CR then Crlfcr else Line;
        case Line =>
          if c == CR { state := Cr; }
          else if c == LF { state := Lf; }
        case Crlfcr =>
          if c == CR || c == LF { return Got, checked + 1, GotRequest; }
          state := Line;
        case GotRequest => return NoRequest, checked, state;
        case Bogus => return NoRequest, checked, state;
      }
      checked := checked + 1;
    }
    return NoRequest, checked, state;
  }

  /** What a scan returns, byte by byte. */
  function ScanFrom(buf: seq<Byte>, idx: nat, limit: nat, s: ParseState): (r: (Verdict, nat, ParseState))
    requires idx <= limit <= |buf|
    ensures r.1 <= limit
    decreases limit - idx
  {
    if idx == limit || Final(s) then (NoRequest, idx, s)
    else
      var s' := Next(s, buf[idx]);
      if s'.GotRequest? then (Got, idx + 1, s')
      else if s'.Bogus? then (Bad, idx, s')
      else ScanFrom(buf, idx + 1, limit, s')
  }

  // ----- Resuming. -----

  /** Feeding a buffer in reads that end at the given marks, stopping at the first verdict. */
  function Feed(buf: seq<Byte>, marks: seq<nat>, idx: nat, s: ParseState): (Verdict, nat, ParseState)
    requires Cuts(marks, idx, |buf|)
    decreases |marks|
  {
    if marks == [] then (NoRequest, idx, s)
    else
      var r := ScanFrom(buf, idx, marks[0], s);
      if r.0 != NoRequest || Final(s) then r
      else
        ScanReaches(buf, idx, marks[0], s);
        Feed(buf, marks[1..], r.1, r.2)
  }

  predicate Cuts(marks: seq<nat>, from: nat, end: nat) {
    && (forall i :: 0 <= i < |marks| ==> from <= marks[i] <= end)
    && (forall i, j :: 0 <= i < j < |marks| ==> marks[i] <= marks[j])
  }

  lemma {:induction false} ScanReaches(buf: seq<Byte>, idx: nat, limit: nat, s: ParseState)
    requires idx <= limit <= |buf| && !Final(s) && ScanFrom(buf, idx, limit, s).0.NoRequest?
    ensures ScanFrom(buf, idx, limit, s).1 == limit && !Final(ScanFrom(buf, idx, limit, s).2)
    decreases limit - idx
  {
    if idx < limit {
      ScanReaches(buf, idx + 1, limit, Next(s, buf[idx]));
    }
  }

  lemma {:induction false} ScanSplits(buf: seq<Byte>, idx: nat, mid: nat, limit: nat, s: ParseState)
    requires idx <= mid <= limit <= |buf| && !Final(s)
    ensures var r := ScanFrom(buf, idx, mid, s);
      ScanFrom(buf, idx, limit, s) == if r.0.NoRequest? then ScanFrom(buf, r.1, limit, r.2) else r
    decreases mid - idx
  {
    if idx < mid && !Final(Next(s, buf[idx])) {
      ScanSplits(buf, idx + 1, mid, limit, Next(s, buf[idx]));
    }
  }

  /** However the input is cut into reads, resuming gives the verdict, index and state of one whole scan. */
  lemma {:induction false} ResumingIsTransparent(buf: seq<Byte>, marks: seq<nat>, idx: nat, s: ParseState)
    requires marks != [] && Cuts(marks, idx, |buf|)
    ensures Feed(buf, marks, idx, s) == ScanFrom(buf, idx, marks[|marks| - 1], s)
    decreases |marks|
  {
    if !Final(s) {
      var r := ScanFrom(buf, idx, marks[0], s);
      ScanSplits(buf, idx, marks[0], marks[|marks| - 1], s);
      if r.0.NoRequest? {
        ScanReaches(buf, idx, marks[0], s);
        if |marks| > 1 {
          ResumingIsTransparent(buf, marks[1..], r.1, r.2);
        }
      }
    }
  }
}
