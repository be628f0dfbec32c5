/** What the two ends make of a call's arguments before the module is asked. */
module Arguments {
  import opened Bytes
  import opened Signature
  import opened Wire
  import Mechanisms
  import Ckr

  // ----- The client's IN_* macros -------------------------------------------------------------

  /**
    What the client writes for an argument, or the code it returns without asking anyone: NULL arrays with
    a length and mechanisms whose parameters it cannot send are refused, a parameter given with a mechanism
    that has none is dropped, and a block too long for the wire counts as memory that could not be had.
   */
  function Admit(p: Part): (r: Result<Part>)
    ensures r.Ok? ==> Fits(r.value) && KindOf(r.value) == KindOf(p)
    ensures r.Err? ==> r.rv != Ckr.OK
  {
    if !p.PMechanism? && !Fits(p) then Err(Ckr.HOST_MEMORY)
    else match p
         case PNoBytes(n) => if n > 0 then Err(Ckr.ARGUMENTS_BAD) else Ok(p)
         case PNoUlongs(n) => if n > 0 then Err(Ckr.ARGUMENTS_BAD) else Ok(p)
         case PMechanism(mech, param) =>
           if Mechanisms.HasNoParameters(mech) then Ok(PMechanism(mech, None))
           else if !Mechanisms.HasSaneParameters(mech) then Err(Ckr.MECHANISM_INVALID)
           else if !Fits(p) then Err(Ckr.HOST_MEMORY)
           else Ok(p)
         case _ => Ok(p)
  }

  /** The arguments in order, up to the first that is refused. */
  function AdmitAll(ps: seq<Part>): (r: Result<seq<Part>>)
    ensures r.Ok? ==> AllFit(r.value) && Kinds(r.value) == Kinds(ps)
    ensures r.Err? ==> r.rv != Ckr.OK
  {
    if ps == [] then Ok([])
    else match Admit(ps[0])
         case Err(rv) => Err(rv)
         case Ok(p) =>
           match AdmitAll(ps[1..])
           case Err(rv) => Err(rv)
           case Ok(more) =>
             assert ([p] + more)[1..] == more;
             Ok([p] + more)
  }

  /** An argument the client can send as it is. */
  predicate Passes(p: Part) {
    && Fits(p)
    && (p.PNoBytes? ==> p.len == 0)
    && (p.PNoUlongs? ==> p.n == 0)
    && (p.PMechanism? ==> Mechanisms.IsSupported(p.mech) && (Mechanisms.HasNoParameters(p.mech) ==> p.param.None?))
  }

  lemma PassingFit(ps: seq<Part>)
    requires forall p <- ps :: Passes(p)
    ensures AllFit(ps)
  {
    hide Fits;
  }

  /** The client sends the caller's own arguments exactly when each can be sent as it is. */
  lemma {:induction false} AdmitAllIff(ps: seq<Part>)
    ensures AdmitAll(ps) == Ok(ps) <==> forall p <- ps :: Passes(p)
    decreases |ps|
  {
    hide Mechanisms.HasNoParameters, Mechanisms.HasSaneParameters, Fits;
    if ps == [] {
    } else {
      AdmitAllIff(ps[1..]);
      assert ps == [ps[0]] + ps[1..];
      assert Admit(ps[0]) == Ok(ps[0]) <==> Passes(ps[0]);
      hide Admit, Passes;
      if AdmitAll(ps) == Ok(ps) {
        var p, more := Admit(ps[0]).value, AdmitAll(ps[1..]).value;
        assert [p] + more == ps && p == ([p] + more)[0] && more == ([p] + more)[1..];
      }
    }
  }

  /** The first refusal decides. */
  lemma {:induction false} FirstRefused(ps: seq<Part>, i: nat)
    requires i < |ps| && Admit(ps[i]).Err? && forall j | 0 <= j < i :: Admit(ps[j]).Ok?
    ensures AdmitAll(ps) == Err(Admit(ps[i]).rv)
    decreases i
  {
    hide Admit;
    if i == 0 {
    } else {
      assert forall j | 0 <= j < i - 1 :: ps[1..][j] == ps[j + 1];
      FirstRefused(ps[1..], i - 1);
    }
  }

  /** If none is refused, each is sent in its place. */
  lemma {:induction false} NoneRefused(ps: seq<Part>, sent: seq<Part>)
    requires |sent| == |ps| && forall j | 0 <= j < |ps| :: Admit(ps[j]) == Ok(sent[j])
    ensures AdmitAll(ps) == Ok(sent)
    decreases |ps|
  {
    hide Admit;
    if ps == [] {
    } else {
      assert forall j | 0 <= j < |ps| - 1 :: ps[1..][j] == ps[j + 1] && sent[1..][j] == sent[j + 1];
      NoneRefused(ps[1..], sent[1..]);
      assert sent == [sent[0]] + sent[1..];
    }
  }

  lemma {:induction false} AdmitAppend(ps: seq<Part>, p: Part)
    requires Admit(p) == Ok(p)
    ensures AdmitAll(ps + [p]) == match AdmitAll(ps) case Err(rv) => Err(rv) case Ok(sent) => Ok(sent + [p])
    decreases |ps|
  {
    hide Admit;
    if ps == [] {
      assert ps + [p] == [p] && [p][1..] == [];
      NoneRefused([p], [p]);
    } else {
      assert (ps + [p])[1..] == ps[1..] + [p];
      AdmitAppend(ps[1..], p);
      if AdmitAll(ps).Ok? {
        var a, more := Admit(ps[0]).value, AdmitAll(ps[1..]).value;
        assert [a] + (more + [p]) == [a] + more + [p];
      }
    }
  }

  // ----- What single calls check for themselves -------------------------------------------------

  const GET_MECHANISM_INFO := 8
  const CREATE_OBJECT := 23
  const SIGN_UPDATE := 47
  const GENERATE_KEY_PAIR := 62
  const GENERATE_RANDOM := 67

  /** The client's checks on the values of its arguments in particular calls: CKR_OK, or the code it returns. */
  function EntryCheck(id: int, args: seq<Part>): Ulong {
    if |args| < 2 then Ckr.OK
    else if (id == CREATE_OBJECT || id == GENERATE_KEY_PAIR) && args[0] == PUlong(0) then Ckr.SESSION_HANDLE_INVALID
    else if id == GET_MECHANISM_INFO && args[1].PUlong? && !Mechanisms.IsSupported(args[1].v) then Ckr.MECHANISM_INVALID
    else if id == SIGN_UPDATE && (args[1] == PBytes([]) || args[1] == PNoBytes(0)) then Ckr.ARGUMENTS_BAD
    else if id == GENERATE_RANDOM && args[1].PByteBuffer? && args[1].nullData then Ckr.ARGUMENTS_BAD
    else Ckr.OK
  }

  /** What the client sends for a call, or the code it returns instead. */
  function Admitted(id: int, args: seq<Part>): (r: Result<seq<Part>>)
    ensures r.Ok? ==> AllFit(r.value) && Kinds(r.value) == Kinds(args)
    ensures r.Err? ==> r.rv != Ckr.OK
  {
    var rv := EntryCheck(id, args);
    if rv != Ckr.OK then Err(rv) else AdmitAll(args)
  }

  lemma CheckedParts()
    ensures PartsOf(GET_MECHANISM_INFO, true) == [U, U] && PartsOf(CREATE_OBJECT, true) == [U, AA]
    ensures PartsOf(SIGN_UPDATE, true) == [U, AY] && PartsOf(GENERATE_KEY_PAIR, true) == [U, M, AA, AA]
    ensures PartsOf(GENERATE_RANDOM, true) == [U, FY]
  {
    LaterParts();
    assert PartsOf(GET_MECHANISM_INFO, true) == [U, U] && PartsOf(CREATE_OBJECT, true) == [U, AA];
    hide PartsOf;
  }

  lemma LaterParts()
    ensures PartsOf(SIGN_UPDATE, true) == [U, AY] && PartsOf(GENERATE_KEY_PAIR, true) == [U, M, AA, AA]
    ensures PartsOf(GENERATE_RANDOM, true) == [U, FY]
  {
  }

  /** A call that ends in a buffer for its output: only C_GenerateRandom checks, for a NULL buffer. */
  lemma BufferEntry(id: int, ins: seq<Part>, p: Part)
    requires IsCall(id) && PartsOf(id, true) == Kinds(ins) + [KindOf(p)] && (KindOf(p) == FY || KindOf(p) == FU)
    ensures EntryCheck(id, ins + [p]) == if id == GENERATE_RANDOM && p.PByteBuffer? && p.nullData then Ckr.ARGUMENTS_BAD else Ckr.OK
  {
    hide PartsOf, Kinds, Mechanisms.IsSupported;
    CheckedParts();
    var ks := PartsOf(id, true);
    assert ks[|ks| - 1] == KindOf(p);
    assert id == GENERATE_RANDOM ==> |ins| == 1 && (ins + [p])[1] == p;
  }

  // ----- The refusals one by one ----------------------------------------------------------------

  /** The counts of arrays and templates fit a CK_ULONG of 32 bits, as the wire has them. */
  predicate Countable(p: Part) {
    && (p.PUlongs? ==> |p.vs| < 0x1_0000_0000)
    && (p.PAttributes? ==> |p.attrs| < 0x1_0000_0000)
    && (p.PAttributeBuffer? ==> |p.wants| < 0x1_0000_0000)
  }

  /** A block of 2^31 - 1 bytes or more that would have to be sent. */
  predicate TooLong(p: Part) {
    match p
    case PString(s) => |s| >= 0x7fff_ffff
    case PBytes(data) => |data| >= 0x7fff_ffff
    case PMechanism(mech, Some(param)) => !Mechanisms.Listed(mech) && |param| >= 0x7fff_ffff
    case PAttributes(attrs) => exists a <- attrs :: a.Value? && |a.value| >= 0x7fff_ffff
    case _ => false
  }

  /** The code one argument is refused with, 0 if it is not. */
  function CodeOf(p: Part): Ulong {
    if (p.PNoBytes? && p.len > 0) || (p.PNoUlongs? && p.n > 0) then 7
    else if p.PMechanism? && !Mechanisms.Listed(p.mech) && p.mech !in {0x9, 0xd, 0x1085} then 0x70
    else if TooLong(p) then 2
    else 0
  }

  /** The code of the first argument that is refused, 0 if none is. */
  function FirstCode(ps: seq<Part>): Ulong {
    if ps == [] then 0 else if CodeOf(ps[0]) != 0 then CodeOf(ps[0]) else FirstCode(ps[1..])
  }

  /** The code a call is refused with, 0 if it is sent. */
  function Refusal(id: int, args: seq<Part>): Ulong {
    if |args| >= 2 && (id == 23 || id == 62) && args[0] == PUlong(0) then 0xb3
    else if |args| >= 2 && id == 8 && args[1].PUlong? && !Mechanisms.Listed(args[1].v) && args[1].v !in {0x9, 0xd, 0x1085} then 0x70
    else if |args| >= 2 && id == 47 && (args[1] == PBytes([]) || args[1] == PNoBytes(0)) then 7
    else if |args| >= 2 && id == 67 && args[1].PByteBuffer? && args[1].nullData then 7
    else FirstCode(args)
  }

  /** An argument as it is sent. */
  function SentAs(p: Part): Part {
    if p.PMechanism? && Mechanisms.Listed(p.mech) then PMechanism(p.mech, None) else p
  }

  function AllSentAs(ps: seq<Part>): seq<Part> {
    seq(|ps|, i requires 0 <= i < |ps| => SentAs(ps[i]))
  }

  lemma AdmitCases(p: Part)
    requires Countable(p)
    ensures Admit(p) == if CodeOf(p) != 0 then Err(CodeOf(p)) else Ok(SentAs(p))
  {
    if p.PMechanism? { Mechanisms.ListedIff(p.mech); }
    hide Mechanisms.HasNoParameters, Mechanisms.Listed;
  }

  lemma {:induction false} AdmitAllCases(ps: seq<Part>)
    requires forall p <- ps :: Countable(p)
    ensures FirstCode(ps) != 0 ==> AdmitAll(ps) == Err(FirstCode(ps))
    ensures FirstCode(ps) == 0 ==> AdmitAll(ps) == Ok(AllSentAs(ps))
    decreases |ps|
  {
    if ps == [] {
    } else {
      AdmitCases(ps[0]);
      hide Admit, CodeOf, SentAs, Countable;
      AdmitAllCases(ps[1..]);
      assert AllSentAs(ps) == [SentAs(ps[0])] + AllSentAs(ps[1..]);
    }
  }

  /**
    Exactly which calls are refused, and with which code: a session of 0 in C_CreateObject and
    C_GenerateKeyPair, an unknown mechanism in C_GetMechanismInfo, no data in C_SignUpdate, no buffer in
    C_GenerateRandom, and in any call the first argument that cannot be sent. The others are sent in order,
    without the parameter of a mechanism that has none.
   */
  lemma RefusedIff(id: int, args: seq<Part>)
    requires forall p <- args :: Countable(p)
    ensures Refusal(id, args) != 0 ==> Admitted(id, args) == Err(Refusal(id, args))
    ensures Refusal(id, args) == 0 ==> Admitted(id, args) == Ok(AllSentAs(args))
  {
    AdmitAllCases(args);
    if |args| >= 2 && args[1].PUlong? { Mechanisms.ListedIff(args[1].v); }
    hide AdmitAll, FirstCode, AllSentAs, Mechanisms.HasNoParameters, Mechanisms.HasSaneParameters, Mechanisms.Listed, Countable;
  }

  // ----- The daemon's call_alloc --------------------------------------------------------------

  /** call_alloc refuses blocks above this size, whatever memory there is. */
  predicate Allocatable(size: nat) {
    size <= 0x7fff_ffff
  }

  /** call_alloc does not refuse the blocks the daemon asks for to take in an argument. */
  predicate Granted(p: Part) {
    match p
    case PString(s) => Allocatable(|s|)
    case PByteBuffer(nullData, _, room) => nullData || Allocatable(room)
    case PUlongBuffer(room) => Allocatable(room * 8)
    case PAttributes(attrs) => Allocatable(|attrs| * 24)
    case PAttributeBuffer(wants) => Allocatable(|wants| * 24) && forall w <- wants :: Allocatable(w.len)
    case _ => true
  }
}
