/** The part vocabulary, the signature cursor and the call table of gck-rpc-private.h. */
module Signature {
  import opened Bytes

  /** A part of a message: byte, ulong, string, version, mechanism, then arrays of and buffers for. */
  datatype Kind = Y | U | S | V | M | AY | AU | AA | FY | FU | FA

  function Code(k: Kind): (c: string)
    ensures 1 <= |c| <= 2
  {
    match k
    case Y => "y" case U => "u" case S => "s" case V => "v" case M => "M"
    case AY => "ay" case AU => "au" case AA => "aA"
    case FY => "fy" case FU => "fu" case FA => "fA"
  }

  function Codes(ks: seq<Kind>): string {
    if ks == [] then "" else Code(ks[0]) + Codes(ks[1..])
  }

  /** gck_rpc_message_verify_part on the remaining signature: the advanced cursor, if the part matches. */
  function VerifyPart(cursor: string, part: string): Option<string> {
    if part <= cursor then Some(cursor[|part|..]) else None
  }

  /** The cursor after a whole sequence of parts has been checked. */
  function VerifyAll(cursor: string, ks: seq<Kind>): Option<string>
    decreases |ks|
  {
    if ks == [] then Some(cursor)
    else match VerifyPart(cursor, Code(ks[0]))
         case None => None
         case Some(rest) => VerifyAll(rest, ks[1..])
  }

  /** The checks pass exactly on the concatenation of the part codes. */
  lemma {:induction false} VerifyAllIff(cursor: string, ks: seq<Kind>, rest: string)
    ensures VerifyAll(cursor, ks) == Some(rest) <==> cursor == Codes(ks) + rest
    decreases |ks|
  {
    if ks == [] {
      assert Codes(ks) + rest == rest;
    } else {
      var c := Code(ks[0]);
      assert Codes(ks) + rest == c + (Codes(ks[1..]) + rest);
      if c <= cursor {
        VerifyAllIff(cursor[|c|..], ks[1..], rest);
        assert cursor == c + cursor[|c|..];
        assert (c + (Codes(ks[1..]) + rest))[|c|..] == Codes(ks[1..]) + rest;
      }
    }
  }

  /** The vocabulary is prefix-free. */
  lemma PrefixFree(j: Kind, k: Kind, x: string, y: string)
    requires Code(j) + x == Code(k) + y
    ensures j == k && x == y
  {
    var s := Code(j) + x;
    assert s[0] == Code(j)[0] == Code(k)[0];
    if |Code(j)| == 2 { assert s[1] == Code(j)[1]; }
    if |Code(k)| == 2 { assert s[1] == Code(k)[1]; }
    assert x == s[|Code(j)|..] && y == s[|Code(k)|..];
  }

  /** Two part sequences accepted by the same signature agree as far as the shorter one goes. */
  lemma {:induction false} AcceptedAgree(sig: string, ks: seq<Kind>, js: seq<Kind>)
    requires VerifyAll(sig, ks).Some? && VerifyAll(sig, js).Some?
    ensures ks <= js || js <= ks
    decreases |ks|
  {
    if ks == [] || js == [] {
    } else {
      var k, j := Code(ks[0]), Code(js[0]);
      assert k + sig[|k|..] == sig == j + sig[|j|..];
      PrefixFree(ks[0], js[0], sig[|k|..], sig[|j|..]);
      AcceptedAgree(sig[|k|..], ks[1..], js[1..]);
      assert ks == [ks[0]] + ks[1..] && js == [js[0]] + js[1..];
    }
  }

  /** Writer and reader of one signature, both ending verified, use the same part sequence. */
  lemma {:induction false} SignatureAgreement(sig: string, ks: seq<Kind>, js: seq<Kind>)
    requires VerifyAll(sig, ks) == Some("") && VerifyAll(sig, js) == Some("")
    ensures ks == js
    decreases |ks|
  {
    if ks == [] || js == [] {
    } else {
      var k, j := Code(ks[0]), Code(js[0]);
      assert k + sig[|k|..] == sig == j + sig[|j|..];
      PrefixFree(ks[0], js[0], sig[|k|..], sig[|j|..]);
      SignatureAgreement(sig[|k|..], ks[1..], js[1..]);
      assert ks == [ks[0]] + ks[1..] && js == [js[0]] + js[1..];
    }
  }

  // ----- The call table ---------------------------------------------------------------------

  type PartList = ks: seq<Kind> | |ks| <= 18

  datatype Call = Call(name: string, request: PartList, response: PartList)

  const CALL_ERROR := 0
  const CALL_MAX := 68

  predicate IsCall(id: int) {
    CALL_ERROR < id < CALL_MAX
  }

  /**
    gck_rpc_calls; entry 0 is the error pseudo-call, which has no signatures. Calls that end in a ulong
    buffer have one other argument, of fixed size.
   */
  function CallOf(id: int): (c: Call)
    requires IsCall(id)
    ensures c.request != [] && c.request[|c.request| - 1] == FU ==>
      |c.request| == 2 && (c.request[0] == Y || c.request[0] == U)
  {
    match id
    case 1 => Call("C_Initialize", [AY], [])
    case 2 => Call("C_Finalize", [], [])
    case 3 => Call("C_GetInfo", [], [V, S, U, S, V])
    case 4 => Call("C_GetSlotList", [Y, FU], [AU])
    case 5 => Call("C_GetSlotInfo", [U], [S, S, U, V, V])
    case 6 => Call("C_GetTokenInfo", [U], [S, S, S, S, U, U, U, U, U, U, U, U, U, U, U, V, V, S])
    case 7 => Call("C_GetMechanismList", [U, FU], [AU])
    case 8 => Call("C_GetMechanismInfo", [U, U], [U, U, U])
    case 9 => Call("C_InitToken", [U, AY, S], [])
    case 10 => Call("C_WaitForSlotEvent", [U], [U])
    case 11 => Call("C_OpenSession", [U, U], [U])
    case 12 => Call("C_CloseSession", [U], [])
    case 13 => Call("C_CloseAllSessions", [U], [])
    case 14 => Call("C_GetFunctionStatus", [U], [])
    case 15 => Call("C_CancelFunction", [U], [])
    case 16 => Call("C_GetSessionInfo", [U], [U, U, U, U])
    case 17 => Call("C_InitPIN", [U, AY], [])
    case 18 => Call("C_SetPIN", [U, AY, AY], [])
    case 19 => Call("C_GetOperationState", [U, FY], [AY])
    case 20 => Call("C_SetOperationState", [U, AY, U, U], [])
    case 21 => Call("C_Login", [U, U, AY], [])
    case 22 => Call("C_Logout", [U], [])
    case 23 => Call("C_CreateObject", [U, AA], [U])
    case 24 => Call("C_CopyObject", [U, U, AA], [U])
    case 25 => Call("C_DestroyObject", [U, U], [])
    case 26 => Call("C_GetObjectSize", [U, U], [U])
    case 27 => Call("C_GetAttributeValue", [U, U, FA], [AA, U])
    case 28 => Call("C_SetAttributeValue", [U, U, AA], [])
    case 29 => Call("C_FindObjectsInit", [U, AA], [])
    case 30 => Call("C_FindObjects", [U, FU], [AU])
    case 31 => Call("C_FindObjectsFinal", [U], [])
    case 32 => Call("C_EncryptInit", [U, M, U], [])
    case 33 => Call("C_Encrypt", [U, AY, FY], [AY])
    case 34 => Call("C_EncryptUpdate", [U, AY, FY], [AY])
    case 35 => Call("C_EncryptFinal", [U, FY], [AY])
    case 36 => Call("C_DecryptInit", [U, M, U], [])
    case 37 => Call("C_Decrypt", [U, AY, FY], [AY])
    case 38 => Call("C_DecryptUpdate", [U, AY, FY], [AY])
    case 39 => Call("C_DecryptFinal", [U, FY], [AY])
    case 40 => Call("C_DigestInit", [U, M], [])
    case 41 => Call("C_Digest", [U, AY, FY], [AY])
    case 42 => Call("C_DigestUpdate", [U, AY], [])
    case 43 => Call("C_DigestKey", [U, U], [])
    case 44 => Call("C_DigestFinal", [U, FY], [AY])
    case 45 => Call("C_SignInit", [U, M, U], [])
    case 46 => Call("C_Sign", [U, AY, FY], [AY])
    case 47 => Call("C_SignUpdate", [U, AY], [])
    case 48 => Call("C_SignFinal", [U, FY], [AY])
    case 49 => Call("C_SignRecoverInit", [U, M, U], [])
    case 50 => Call("C_SignRecover", [U, AY, FY], [AY])
    case 51 => Call("C_VerifyInit", [U, M, U], [])
    case 52 => Call("C_Verify", [U, AY, AY], [])
    case 53 => Call("C_VerifyUpdate", [U, AY], [])
    case 54 => Call("C_VerifyFinal", [U, AY], [])
    case 55 => Call("C_VerifyRecoverInit", [U, M, U], [])
    case 56 => Call("C_VerifyRecover", [U, AY, FY], [AY])
    case 57 => Call("C_DigestEncryptUpdate", [U, AY, FY], [AY])
    case 58 => Call("C_DecryptDigestUpdate", [U, AY, FY], [AY])
    case 59 => Call("C_SignEncryptUpdate", [U, AY, FY], [AY])
    case 60 => Call("C_DecryptVerifyUpdate", [U, AY, FY], [AY])
    case 61 => Call("C_GenerateKey", [U, M, AA], [U])
    case 62 => Call("C_GenerateKeyPair", [U, M, AA, AA], [U, U])
    case 63 => Call("C_WrapKey", [U, M, U, U, FY], [AY])
    case 64 => Call("C_UnwrapKey", [U, M, U, AY, AA], [U])
    case 65 => Call("C_DeriveKey", [U, M, U, AA], [U])
    case 66 => Call("C_SeedRandom", [U, AY], [])
    case _ => Call("C_GenerateRandom", [U, FY], [AY])
  }

  /** The parts of a call's request or response; its signature is the concatenation of their codes. */
  function PartsOf(id: int, request: bool): PartList
    requires IsCall(id)
  {
    if request then CallOf(id).request else CallOf(id).response
  }

  /** A signature determines its parts. */
  lemma CodesInjective(ks: seq<Kind>, js: seq<Kind>)
    requires Codes(ks) == Codes(js)
    ensures ks == js
  {
    VerifyAllIff(Codes(ks), ks, "");
    VerifyAllIff(Codes(js), js, "");
    SignatureAgreement(Codes(ks), ks, js);
  }
}
