/** The assumptions on a mutation's configuration can be met, whatever its operation, names and payload. */
module MutationWitness {
  import opened Ordering
  import opened Bytes
  import opened MutationProtocol
  import opened MutationSystem
  import opened MutationSuccess

  // ---- numbers as bytes -------------------------------------------------------------------------

  const WORD := 8

  function Power(k: nat): nat {
    if k == 0 then 1 else 256 * Power(k - 1)
  }

  function Digits(n: nat, k: nat): (b: seq<byte>)
    ensures |b| == k
  {
    if k == 0 then [] else [n % 256] + Digits(n / 256, k - 1)
  }

  function Number(b: seq<byte>): nat {
    if b == [] then 0 else b[0] as nat + 256 * Number(b[1..])
  }

  lemma {:induction false} DigitsInvert(n: nat, k: nat)
    requires n < Power(k)
    ensures Number(Digits(n, k)) == n
  {
    if k > 0 {
      DigitsInvert(n / 256, k - 1);
    }
  }

  function Packed(ns: seq<nat>): (b: seq<byte>)
    ensures |b| == WORD * |ns|
  {
    if ns == [] then [] else Digits(ns[0], WORD) + Packed(ns[1..])
  }

  lemma {:induction false} PackedInjective(ns: seq<nat>, ms: seq<nat>)
    requires Packed(ns) == Packed(ms)
    requires (forall i :: 0 <= i < |ns| ==> ns[i] < Power(WORD)) && (forall i :: 0 <= i < |ms| ==> ms[i] < Power(WORD))
    ensures ns == ms
  {
    if ns != [] {
      var b := Packed(ns);
      assert b[..WORD] == Digits(ns[0], WORD) == Digits(ms[0], WORD);
      assert b[WORD..] == Packed(ns[1..]) == Packed(ms[1..]);
      DigitsInvert(ns[0], WORD);
      DigitsInvert(ms[0], WORD);
      PackedInjective(ns[1..], ms[1..]);
    }
  }

  lemma WordPower()
    ensures Power(WORD) == 0x1_0000_0000_0000_0000
  {
    assert Power(2) == 0x1_0000;
    assert Power(4) == 0x1_0000_0000;
    assert Power(6) == 0x1_0000_0000_0000;
  }

  // ---- records as numbers -----------------------------------------------------------------------

  const SHIFT := 0x8000_0000_0000_0000

  function Bit(b: bool): nat {
    if b then 1 else 0
  }

  function OperationNumber(o: Operation): nat {
    match o case Create => 0 case Replace => 1 case BadOperation => 2
  }

  function PhaseNumber(p: Phase): nat {
    match p
    case Begun => 0
    case Request => 1
    case StageCreated => 2
    case StageAck => 3
    case StageAnnounced => 4
    case PayloadComplete => 5
    case Commit => 6
    case Terminal => 7
    case BadPhase => 8
  }

  function KindNumber(k: TerminalKind): nat {
    match k case NoKind => 0 case Committed => 1 case Refused => 2 case Failure => 3 case Uncertain => 4
  }

  function CodeNumber(c: TerminalCode): nat {
    match c
    case NoCode => 0
    case CommittedCode => 1
    case SourceChangedCode => 2
    case DestinationExistsCode => 3
    case UnsupportedCode => 4
    case CanceledCode => 5
    case IoCode => 6
    case UncertainCode => 7
  }

  function RolesNumber(r: Roles): nat {
    Bit(r.control) + 2 * Bit(r.root) + 4 * Bit(r.parent) + 8 * Bit(r.source) + 16 * Bit(r.other)
  }

  function StampNumbers(s: Stamp): seq<nat> {
    [s.device, s.inode, s.mode, s.uid, s.nlink, s.size + SHIFT, s.mtimeSec + SHIFT, s.mtimeNsec + SHIFT, s.ctimeSec + SHIFT, s.ctimeNsec + SHIFT]
  }

  function HeadNumbers(r: Control): seq<nat> {
    [OperationNumber(r.operation), PhaseNumber(r.phase), RolesNumber(r.roles), r.payloadBytes, Bit(r.targetLeaf == ""), Bit(r.stageLeaf == ""),
     Bit(r.token == ""), KindNumber(r.terminal), CodeNumber(r.code)]
  }

  function Numbers(r: Control): seq<nat> {
    HeadNumbers(r) + StampNumbers(r.expected) + StampNumbers(r.executable) + StampNumbers(r.stage)
  }

  lemma NumbersFit(r: Control)
    requires r.payloadBytes <= MAX_PAYLOAD_BYTES
    ensures forall i :: 0 <= i < |Numbers(r)| ==> Numbers(r)[i] < Power(WORD)
  {
    WordPower();
  }

  lemma StampsDiffer(s: Stamp, t: Stamp)
    requires StampNumbers(s) == StampNumbers(t)
    ensures s == t
  {
    var a, b := StampNumbers(s), StampNumbers(t);
    assert forall i :: 0 <= i < 10 ==> a[i] == b[i];
  }

  lemma HeadsDiffer(c: Config, r: Control, q: Control)
    requires Carried(c, r) && Carried(c, q) && HeadNumbers(r) == HeadNumbers(q)
    ensures q == r.(expected := q.expected, executable := q.executable, stage := q.stage)
  {
    var a, b := HeadNumbers(r), HeadNumbers(q);
    assert forall i :: 0 <= i < 9 ==> a[i] == b[i];
  }

  lemma NumbersInjective(c: Config, r: Control, q: Control)
    requires Carried(c, r) && Carried(c, q) && Numbers(r) == Numbers(q)
    ensures r == q
  {
    var a, b := Numbers(r), Numbers(q);
    assert HeadNumbers(r) == a[..9] == b[..9] == HeadNumbers(q);
    assert StampNumbers(r.expected) == a[9..19] == b[9..19] == StampNumbers(q.expected);
    assert StampNumbers(r.executable) == a[19..29] == b[19..29] == StampNumbers(q.executable);
    assert StampNumbers(r.stage) == a[29..39] == b[29..39] == StampNumbers(q.stage);
    hide HeadNumbers, StampNumbers, Numbers, Carried;
    HeadsDiffer(c, r, q);
    StampsDiffer(r.expected, q.expected);
    StampsDiffer(r.executable, q.executable);
    StampsDiffer(r.stage, q.stage);
  }

  // ---- a codec for every mutation ---------------------------------------------------------------

  ghost function Decoded(c: Config, b: seq<byte>): Option<Control> {
    if r: Control :| Carried(c, r) && Packed(Numbers(r)) == b then Some(r) else None
  }

  lemma DecodedBack(c: Config, r: Control)
    requires Carried(c, r)
    ensures Decoded(c, Packed(Numbers(r))) == Some(r)
  {
    var q := Decoded(c, Packed(Numbers(r))).value;
    NumbersFit(r);
    NumbersFit(q);
    PackedInjective(Numbers(r), Numbers(q));
    NumbersInjective(c, r, q);
  }

  /** Whatever a mutation's operation, names, stamps and payload, some encoding carries all records of its exchange. */
  lemma CodecExists(c: Config) returns (codec: Codec)
    requires Proper(c)
    ensures ValidConfig(c.(codec := codec))
  {
    codec := Codec(r => Packed(Numbers(r)), b => Decoded(c, b));
    forall r: Control | Carried(c.(codec := codec), r) ensures Carries(codec, r) {
      DecodedBack(c, r);
      assert |Numbers(r)| == 39;
    }
  }

  const STAGE := STAGE_PREFIX + TOKEN
  const TOKEN := "00000000000000000000000000000000"

  /** So the main results speak of something: here is a mutation of each kind. */
  lemma MutationsExist(op: Operation, payload: seq<byte>) returns (c: Config)
    requires !op.BadOperation? && |payload| <= MAX_PAYLOAD_BYTES
    ensures ValidConfig(c) && Suitable(c) && c.op == op && c.payload == payload
  {
    var stamp := Stamp(1, 1, 1, 0, 1, 0, 0, 0, 0, 0);
    c := Config(Codec(_ => [], _ => None), op, payload, "note.md", STAGE, if op.Create? then NO_STAMP else stamp, stamp, TOKEN,
                if op.Create? then map[] else map["note.md" := Entry(stamp, [])]);
    assert STAGE[|STAGE_PREFIX|..] == TOKEN && STAGE[..|STAGE_PREFIX|] == STAGE_PREFIX;
    var codec := CodecExists(c);
    c := c.(codec := codec);
  }
}
