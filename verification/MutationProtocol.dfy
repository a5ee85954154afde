/** One side of the staged-mutation protocol: what it may send and accept, and how control records become bytes. */
module MutationProtocol {
  import opened Ordering
  import opened Bytes

  const PROTOCOL_VERSION := 1
  const MAX_CONTROL_BYTES := 4096
  const MAX_PAYLOAD_BYTES := 8 * 1024 * 1024

  datatype Operation = Create | Replace | BadOperation

  /** `Begun` is the phase before any record. */
  datatype Phase = Begun | Request | StageCreated | StageAck | StageAnnounced | PayloadComplete | Commit | Terminal | BadPhase

  datatype TerminalKind = NoKind | Committed | Refused | Failure | Uncertain

  datatype TerminalCode = NoCode | CommittedCode | SourceChangedCode | DestinationExistsCode | UnsupportedCode | CanceledCode | IoCode | UncertainCode

  datatype Roles = Roles(control: bool, root: bool, parent: bool, source: bool, other: bool)

  const NO_ROLES := Roles(false, false, false, false, false)

  type Unsigned32 = n: int | 0 <= n < 0x1_0000_0000
  type Unsigned64 = n: int | 0 <= n < 0x1_0000_0000_0000_0000
  type Signed64 = n: int | -0x8000_0000_0000_0000 <= n < 0x8000_0000_0000_0000

  datatype Stamp = Stamp(device: Unsigned64, inode: Unsigned64, mode: Unsigned32, uid: Unsigned32, nlink: Unsigned64, size: Signed64,
                         mtimeSec: Signed64, mtimeNsec: Signed64, ctimeSec: Signed64, ctimeNsec: Signed64)

  const NO_STAMP := Stamp(0, 0, 0, 0, 0, 0, 0, 0, 0, 0)

  datatype Control = Control(version: int, operation: Operation, phase: Phase, roles: Roles, payloadBytes: nat, targetLeaf: string,
                             stageLeaf: string, expected: Stamp, executable: Stamp, stage: Stamp, token: string,
                             terminal: TerminalKind, code: TerminalCode)

  /** A record with only the fields every phase has. */
  function Bare(op: Operation, phase: Phase): Control {
    Control(PROTOCOL_VERSION, op, phase, NO_ROLES, 0, "", "", NO_STAMP, NO_STAMP, NO_STAMP, "", NoKind, NoCode)
  }

  // ---- valid fields -----------------------------------------------------------------------------

  const STAGE_PREFIX := ".pmcg-stage-"

  predicate ValidStageLeaf(leaf: string) {
    |leaf| == |STAGE_PREFIX| + 32 && leaf[..|STAGE_PREFIX|] == STAGE_PREFIX && LowerHex(leaf[|STAGE_PREFIX|..])
  }

  predicate ValidTargetLeaf(leaf: string) {
    leaf != "" && leaf[0] != '.' && forall i :: 0 <= i < |leaf| ==> leaf[i] != '/' && leaf[i] != '\\' && leaf[i] != '\0'
  }

  predicate ValidToken(token: string) { |token| == 32 && LowerHex(token) }

  predicate ValidStamp(s: Stamp) {
    s.device != 0 && s.inode != 0 && s.mode != 0 && s.nlink != 0 && s.size >= 0
    && 0 <= s.mtimeNsec < 1000000000 && 0 <= s.ctimeNsec < 1000000000
  }

  predicate ValidRoles(op: Operation, r: Roles) {
    !r.other && r.control && r.root && r.parent && (op.Replace? == r.source)
  }

  predicate ValidExpected(op: Operation, s: Stamp) {
    if op.Create? then s == NO_STAMP else ValidStamp(s)
  }

  predicate ValidTerminal(kind: TerminalKind, code: TerminalCode) {
    match kind
    case NoKind => false
    case Committed => code.CommittedCode?
    case Refused => code.SourceChangedCode? || code.DestinationExistsCode? || code.CanceledCode?
    case Failure => code.IoCode? || code.UnsupportedCode?
    case Uncertain => code.UncertainCode?
  }

  // ---- the automaton of one side ----------------------------------------------------------------

  datatype Side = Parent | Helper

  datatype Automaton = Automaton(side: Side, operation: Operation, roles: Roles, phase: Phase, payload: nat)

  predicate CanSend(a: Automaton, phase: Phase) {
    match (a.side, a.phase)
    case (Parent, Begun) => phase.Request?
    case (Parent, StageCreated) => phase.StageAck?
    case (Parent, PayloadComplete) => phase.Commit?
    case (Helper, Request) => phase.StageCreated?
    case (Helper, StageAck) => phase.StageAnnounced?
    case (Helper, PayloadComplete) => phase.PayloadComplete?
    case (Helper, Commit) => phase.Terminal?
    case _ => false
  }

  predicate CanReceive(a: Automaton, phase: Phase) {
    match (a.side, a.phase)
    case (Parent, Request) => phase.StageCreated?
    case (Parent, StageAck) => phase.StageAnnounced?
    case (Parent, PayloadComplete) => phase.PayloadComplete?
    case (Parent, Commit) => phase.Terminal?
    case (Helper, Begun) => phase.Request?
    case (Helper, StageCreated) => phase.StageAck?
    case (Helper, PayloadComplete) => phase.Commit?
    case _ => false
  }

  /** A record carries the fields of its phase and no others. */
  predicate Bound(a: Automaton, c: Control) {
    && c.version == PROTOCOL_VERSION && c.operation == a.operation
    && match c.phase
       case Request =>
         c.roles == a.roles && c.payloadBytes <= MAX_PAYLOAD_BYTES && ValidTargetLeaf(c.targetLeaf) && ValidStageLeaf(c.stageLeaf)
         && ValidExpected(c.operation, c.expected)
         && c == Bare(c.operation, Request).(roles := c.roles, payloadBytes := c.payloadBytes, targetLeaf := c.targetLeaf,
                                             stageLeaf := c.stageLeaf, expected := c.expected)
       case StageCreated => ValidStamp(c.executable) && c == Bare(c.operation, StageCreated).(executable := c.executable)
       case StageAck => c == Bare(c.operation, StageAck)
       case StageAnnounced => ValidStamp(c.stage) && c == Bare(c.operation, StageAnnounced).(stage := c.stage)
       case PayloadComplete => ValidStamp(c.stage) && c == Bare(c.operation, PayloadComplete).(stage := c.stage)
       case Commit => ValidToken(c.token) && c == Bare(c.operation, Commit).(token := c.token)
       case Terminal =>
         ValidTerminal(c.terminal, c.code) && (if c.terminal.Committed? then ValidStamp(c.stage) else c.stage == NO_STAMP)
         && c == Bare(c.operation, Terminal).(stage := c.stage, terminal := c.terminal, code := c.code)
       case _ => false
  }

  /** Whose a record's fields are: each phase has its own, of valid form, and leaves all others empty. */
  lemma FieldsBelong(a: Automaton, c: Control)
    requires Bound(a, c)
    ensures c.version == 1 && c.operation == a.operation && !c.phase.Begun? && !c.phase.BadPhase?
    ensures if c.phase.Request?
            then c.roles == a.roles && c.payloadBytes <= 8388608 && c.targetLeaf != "" && c.targetLeaf[0] != '.' && '/' !in c.targetLeaf && '\\' !in c.targetLeaf
                 && |c.stageLeaf| == 44 && c.stageLeaf[0] == '.' && (c.operation.Create? ==> c.expected == NO_STAMP) && (!c.operation.Create? ==> ValidStamp(c.expected))
            else c.roles == NO_ROLES && c.payloadBytes == 0 && c.targetLeaf == "" && c.stageLeaf == "" && c.expected == NO_STAMP
    ensures if c.phase.StageCreated? then ValidStamp(c.executable) else c.executable == NO_STAMP
    ensures if c.phase.Commit? then |c.token| == 32 && LowerHex(c.token) else c.token == ""
    ensures c.stage != NO_STAMP ==> ValidStamp(c.stage) && (c.phase.StageAnnounced? || c.phase.PayloadComplete? || (c.phase.Terminal? && c.terminal.Committed?))
    ensures c.phase.StageAnnounced? || c.phase.PayloadComplete? || (c.phase.Terminal? && c.terminal.Committed?) ==> ValidStamp(c.stage)
    ensures if c.phase.Terminal? then ValidTerminal(c.terminal, c.code) else c.terminal.NoKind? && c.code.NoCode?
  {
    if c.phase.Request? {
      assert c.stageLeaf[0] == c.stageLeaf[..|STAGE_PREFIX|][0];
    }
  }

  function Advance(a: Automaton, c: Control): Automaton {
    a.(phase := c.phase, payload := if c.phase.Request? then c.payloadBytes else a.payload)
  }

  /** The helper takes operation and roles from the request, even when it then refuses it. */
  function Adopt(a: Automaton, c: Control): Automaton {
    if a.side.Helper? && a.phase.Begun? && !c.operation.BadOperation? && ValidRoles(c.operation, c.roles)
    then a.(operation := c.operation, roles := c.roles) else a
  }

  predicate Sends(a: Automaton, c: Control) {
    CanSend(a, c.phase) && Bound(a, c)
  }

  predicate Accepts(a: Automaton, c: Control) {
    && CanReceive(a, c.phase)
    && (a.side.Helper? && a.phase.Begun? ==> !c.operation.BadOperation? && ValidRoles(c.operation, c.roles))
    && Bound(Adopt(a, c), c)
  }

  function Received(a: Automaton, c: Control): Automaton {
    if !CanReceive(a, c.phase) then a else if Accepts(a, c) then Advance(Adopt(a, c), c) else Adopt(a, c)
  }

  predicate MovesPayload(a: Automaton, side: Side, size: nat) {
    a.side == side && a.phase.StageAnnounced? && size == a.payload
  }

  /**
   * Remark: once the payload is sent, the parent's automaton alone would let commit go out at once: that the helper has
   * confirmed the payload first is a property of the two programs together.
   */
  lemma AutomatonAllowsEarlyCommit(a: Automaton, c: Control)
    requires MovesPayload(a, Parent, a.payload) && c.phase.Commit? && Bound(a, c)
    ensures Sends(a.(phase := PayloadComplete), c)
  {
  }

  // ---- records as bytes -------------------------------------------------------------------------

  /** The JSON encoding. */
  datatype Codec = Codec(encode: Control -> seq<byte>, decode: seq<byte> -> Option<Control>)

  function BigEndian(n: nat): (b: seq<byte>)
    requires n < 0x1_0000_0000
    ensures |b| == 4
  {
    [n / 0x100_0000, n / 0x1_0000 % 256, n / 256 % 256, n % 256]
  }

  function Length(b: seq<byte>): nat
    requires |b| >= 4
  {
    (b[0] as int) * 0x100_0000 + (b[1] as int) * 0x1_0000 + (b[2] as int) * 256 + b[3] as int
  }

  predicate Fits(codec: Codec, c: Control) {
    0 < |codec.encode(c)| <= MAX_CONTROL_BYTES
  }

  /** The record has room in a frame, and decoding gives it back: the one law of the encoding. */
  predicate Carries(codec: Codec, c: Control) {
    Fits(codec, c) && codec.decode(codec.encode(c)) == Some(c)
  }

  /** A record that does not fit is never written. */
  function Frame(codec: Codec, c: Control): seq<byte> {
    if Fits(codec, c) then BigEndian(|codec.encode(c)|) + codec.encode(c) else []
  }

  datatype FrameRead = Short | Invalid | Got(control: Control, rest: seq<byte>)

  function ReadFrame(codec: Codec, b: seq<byte>): FrameRead {
    if |b| < 4 then Short
    else if Length(b) == 0 || Length(b) > MAX_CONTROL_BYTES then Invalid
    else if |b| < 4 + Length(b) then Short
    else match codec.decode(b[4..4 + Length(b)])
         case None => Invalid
         case Some(c) => Got(c, b[4 + Length(b)..])
  }

  predicate StrictPrefix(p: seq<byte>, s: seq<byte>) {
    |p| < |s| && p == s[..|p|]
  }

  lemma LengthOfFrame(codec: Codec, c: Control, b: seq<byte>)
    requires Fits(codec, c) && |b| >= 4 && b[..4] == Frame(codec, c)[..4]
    ensures Length(b) == |codec.encode(c)|
  {
    var n := |codec.encode(c)|;
    assert Frame(codec, c)[..4] == BigEndian(n);
    assert b[0] == b[..4][0] && b[1] == b[..4][1] && b[2] == b[..4][2] && b[3] == b[..4][3];
  }

  /** A frame is read back as it was written, and nothing after it is touched, whatever those bytes look like. */
  lemma FrameRoundTrip(codec: Codec, c: Control, rest: seq<byte>)
    requires Carries(codec, c)
    ensures ReadFrame(codec, Frame(codec, c) + rest) == Got(c, rest)
  {
    var b, n := Frame(codec, c) + rest, |codec.encode(c)|;
    assert b[..4] == Frame(codec, c)[..4];
    LengthOfFrame(codec, c, b);
    assert b[4..4 + n] == codec.encode(c) && b[4 + n..] == rest;
  }

  /** A frame cut short anywhere is never taken for a record. */
  lemma CutFrameIsShort(codec: Codec, c: Control, p: seq<byte>)
    requires Fits(codec, c) && StrictPrefix(p, Frame(codec, c))
    ensures ReadFrame(codec, p) == Short
  {
    if |p| >= 4 {
      assert p[..4] == Frame(codec, c)[..4];
      LengthOfFrame(codec, c, p);
    }
  }

  // ---- the two sides as objects -----------------------------------------------------------------

  /** A stream: what has been written so far, and what is still to be read before the other side closes it. */
  class Wire {
    const script: nat -> (nat, bool)
    var clock: nat
    var written: seq<byte>
    var incoming: seq<byte>

    constructor (script: nat -> (nat, bool), incoming: seq<byte>)
      ensures this.script == script && this.incoming == incoming && written == [] && clock == 0
    {
      this.script, this.incoming, written, clock := script, incoming, [], 0;
    }

    /** Writes some of the value; a failed write delivers less than all of it. */
    method Write(value: seq<byte>) returns (n: nat, failed: bool)
      requires value != []
      modifies this`clock, this`written
      ensures n <= |value| && written == old(written) + value[..n] && (failed ==> n < |value|)
    {
      n, failed := script(clock).0, script(clock).1;
      if n > |value| {
        n := |value|;
      }
      failed := failed && n < |value|;
      clock, written := clock + 1, written + value[..n];
    }

    method WriteAll(value: seq<byte>) returns (ok: bool)
      modifies this`clock, this`written
      ensures ok ==> written == old(written) + value
      ensures !ok ==> |written| >= |old(written)| && old(written) == written[..|old(written)|] && StrictPrefix(written[|old(written)|..], value)
    {
      var sent := 0;
      while sent < |value|
        invariant 0 <= sent <= |value| && written == old(written) + value[..sent]
        decreases |value| - sent
      {
        var n, failed := Write(value[sent..]);
        assert value[..sent] + value[sent..][..n] == value[..sent + n];
        sent := sent + n;
        if failed || n == 0 {
          assert written[|old(written)|..] == value[..sent];
          return false;
        }
      }
      ok := true;
    }

    /** Reads exactly n bytes; a stream that ends first gives up what it had. */
    method ReadFull(n: nat) returns (value: Option<seq<byte>>)
      modifies this`incoming
      ensures if |old(incoming)| >= n then value == Some(old(incoming)[..n]) && incoming == old(incoming)[n..]
              else value.None? && incoming == []
    {
      if |incoming| >= n {
        value, incoming := Some(incoming[..n]), incoming[n..];
      } else {
        value, incoming := None, [];
      }
    }
  }

  class Protocol {
    const codec: Codec
    const wire: Wire
    var state: Automaton

    constructor (codec: Codec, wire: Wire, state: Automaton)
      ensures this.codec == codec && this.wire == wire && this.state == state
    {
      this.codec, this.wire, this.state := codec, wire, state;
    }

    /** Sends a record the automaton allows as one whole frame, or leaves the automaton where it was. */
    method SendControl(c: Control) returns (ok: bool)
      modifies this, wire`clock, wire`written
      ensures ok ==> Sends(old(state), c) && Fits(codec, c) && state == Advance(old(state), c) && wire.written == old(wire.written) + Frame(codec, c)
      ensures !ok ==> state == old(state)
      ensures !ok && Sends(old(state), c) && Fits(codec, c) ==>
                exists p :: StrictPrefix(p, Frame(codec, c)) && wire.written == old(wire.written) + p
      ensures !(Sends(old(state), c) && Fits(codec, c)) ==> !ok && wire.written == old(wire.written)
    {
      if !CanSend(state, c.phase) || !Bound(state, c) {
        return false;
      }
      var encoded := codec.encode(c);
      if |encoded| == 0 || |encoded| > MAX_CONTROL_BYTES {
        return false;
      }
      ghost var w0, frame := wire.written, Frame(codec, c);
      var head := BigEndian(|encoded|);
      ok := wire.WriteAll(head);
      if !ok {
        ghost var p := wire.written[|w0|..];
        assert wire.written == w0 + p && StrictPrefix(p, frame);
        return;
      }
      ghost var w1 := wire.written;
      ok := wire.WriteAll(encoded);
      if !ok {
        ghost var p := head + wire.written[|w1|..];
        assert wire.written == w0 + p && StrictPrefix(p, frame);
        return;
      }
      assert wire.written == w0 + frame;
      state := Advance(state, c);
    }

    /** Accepts a record only if the bytes are one and the automaton allows it. */
    method ReceiveControl() returns (c: Option<Control>)
      modifies this, wire`incoming
      ensures match ReadFrame(codec, old(wire.incoming))
              case Got(control, rest) =>
                c == (if Accepts(old(state), control) then Some(control) else None) && state == Received(old(state), control) && wire.incoming == rest
              case _ => c.None? && state == old(state)
    {
      ghost var b := wire.incoming;
      var head := wire.ReadFull(4);
      if head.None? {
        return None;
      }
      assert b[..4] == head.value;
      var n := Length(head.value);
      if n == 0 || n > MAX_CONTROL_BYTES {
        return None;
      }
      var encoded := wire.ReadFull(n);
      if encoded.None? {
        return None;
      }
      assert b[4..][..n] == b[4..4 + n] && b[4..][n..] == b[4 + n..];
      c := codec.decode(encoded.value);
      if c.None? {
        return;
      }
      if !CanReceive(state, c.value.phase) {
        return None;
      }
      var before := state;
      state := Adopt(state, c.value);
      if !Accepts(before, c.value) {
        return None;
      }
      state := Advance(state, c.value);
    }

    method SendPayload(payload: seq<byte>) returns (ok: bool)
      modifies this, wire`clock, wire`written
      ensures ok ==> MovesPayload(old(state), Parent, |payload|) && state == old(state).(phase := PayloadComplete)
                     && wire.written == old(wire.written) + payload
      ensures !ok ==> state == old(state)
      ensures !MovesPayload(old(state), Parent, |payload|) ==> !ok && wire.written == old(wire.written)
    {
      if !MovesPayload(state, Parent, |payload|) {
        return false;
      }
      ok := wire.WriteAll(payload);
      if ok {
        state := state.(phase := PayloadComplete);
      }
    }

    /** Takes exactly the declared number of raw bytes, whatever they look like. */
    method ReceivePayload(size: nat) returns (payload: Option<seq<byte>>)
      modifies this, wire`incoming
      ensures payload.Some? <==> MovesPayload(old(state), Helper, size) && |old(wire.incoming)| >= size
      ensures payload.Some? ==> payload.value == old(wire.incoming)[..size] && wire.incoming == old(wire.incoming)[size..]
                                && state == old(state).(phase := PayloadComplete)
      ensures payload.None? ==> state == old(state)
    {
      if !MovesPayload(state, Helper, size) {
        return None;
      }
      payload := wire.ReadFull(size);
      if payload.Some? {
        state := state.(phase := PayloadComplete);
      }
    }
  }
}
