/**
 Message types and their wire bytes (core/types.go and core/endpoint.go).
 A MessageType is a Go string, that is, a byte string.
 */
module MessageTypes {
  import opened Bytes

  type MessageType = seq<byte>

  function Ascii(s: string): (b: seq<byte>)
    ensures |b| == |s| && forall i :: 0 <= i < |s| && s[i] as int < 256 ==> b[i] == s[i] as int
  {
    seq(|s|, i requires 0 <= i < |s| => s[i] as int % 256)
  }

  function TypeIntent(): MessageType { Ascii("intent") }
  function TypeFeatures(): MessageType { Ascii("features") }
  function TypeToolRequest(): MessageType { Ascii("tool_request") }
  function TypeAuth(): MessageType { Ascii("auth") }
  function TypeChallenge(): MessageType { Ascii("challenge") }
  function TypeAuthResponse(): MessageType { Ascii("auth_response") }
  function TypeAck(): MessageType { Ascii("ack") }
  function TypePolicyResult(): MessageType { Ascii("policy_result") }
  function TypeHeartbeat(): MessageType { Ascii("heartbeat") }
  function TypeAudit(): MessageType { Ascii("audit") }
  function TypeChat(): MessageType { Ascii("chat") }
  function TypeComplete(): MessageType { Ascii("complete") }

  /** string(rune(b)): the UTF-8 encoding of U+00b. */
  function Utf8(b: byte): (s: seq<byte>)
    ensures b < 128 ==> s == [b]
    ensures b >= 128 ==> |s| == 2 && s[0] / 32 == 6 && s[1] / 64 == 2 && (s[0] as int % 32) * 64 + s[1] as int % 64 == b
  {
    if b < 128 then [b] else [0xC0 + b / 64, 0x80 + b % 64]
  }

  /** msgTypeFromByte. */
  function FromByte(b: byte): MessageType {
    if b == 105 then TypeIntent()
    else if b == 102 then TypeFeatures()
    else if b == 116 then TypeToolRequest()
    else if b == 97 then TypeAck()
    else if b == 65 then TypeAuth()
    else if b == 72 then TypeChallenge()
    else if b == 82 then TypeAuthResponse()
    else if b == 112 then TypePolicyResult()
    else if b == 104 then TypeHeartbeat()
    else if b == 117 then TypeAudit()
    else if b == 99 then TypeChat()
    else if b == 67 then TypeComplete()
    else Utf8(b)
  }

  /** MsgTypeToByte. */
  function ToByte(mt: MessageType): byte {
    if mt == TypeIntent() then 105
    else if mt == TypeFeatures() then 102
    else if mt == TypeToolRequest() then 116
    else if mt == TypeAck() then 97
    else if mt == TypeAuth() then 65
    else if mt == TypeChallenge() then 72
    else if mt == TypeAuthResponse() then 82
    else if mt == TypePolicyResult() then 112
    else if mt == TypeHeartbeat() then 104
    else if mt == TypeAudit() then 117
    else if mt == TypeChat() then 99
    else if mt == TypeComplete() then 67
    else if |mt| > 0 then mt[0]
    else 0
  }

  /** The bytes the twelve named types travel as: i f t a A H R p h u c C. */
  predicate Reserved(b: byte) {
    b == 105 || b == 102 || b == 116 || b == 97 || b == 65 || b == 72 ||
    b == 82 || b == 112 || b == 104 || b == 117 || b == 99 || b == 67
  }

  predicate Known(mt: MessageType) {
    || mt == TypeIntent() || mt == TypeFeatures()
    || mt == TypeToolRequest() || mt == TypeAck()
    || mt == TypeAuth() || mt == TypeChallenge()
    || mt == TypeAuthResponse() || mt == TypePolicyResult()
    || mt == TypeHeartbeat() || mt == TypeAudit()
    || mt == TypeChat() || mt == TypeComplete()
  }

  /** Length and first byte tell the named types apart, and none is one or two bytes long. */
  lemma NamedTypesDiffer()
    ensures |TypeIntent()| == 6 && |TypeToolRequest()| == 12 && |TypeAck()| == 3 && |TypeAudit()| == 5
    ensures |TypeFeatures()| == 8 == |TypeComplete()| && TypeFeatures()[0] == 102 && TypeComplete()[0] == 99
    ensures |TypeAuth()| == 4 == |TypeChat()| && TypeAuth()[0] == 97 && TypeChat()[0] == 99
    ensures |TypeChallenge()| == 9 == |TypeHeartbeat()| && TypeChallenge()[0] == 99 && TypeHeartbeat()[0] == 104
    ensures |TypeAuthResponse()| == 13 == |TypePolicyResult()|
    ensures TypeAuthResponse()[0] == 97 && TypePolicyResult()[0] == 112
  {
  }

  /** Which message types survive the wire: the named ones, other single ASCII bytes, and U+00C3. */
  predicate Survives(mt: MessageType) {
    Known(mt) || (|mt| == 1 && mt[0] < 128 && !Reserved(mt[0])) || mt == [0xC3, 0x83]
  }

  lemma NamedRoundTrip(mt: MessageType)
    requires Known(mt)
    ensures FromByte(ToByte(mt)) == mt
  {
    hide TypeIntent, TypeFeatures, TypeToolRequest, TypeAck, TypeAuth, TypeChallenge, TypeAuthResponse,
      TypePolicyResult, TypeHeartbeat, TypeAudit, TypeChat, TypeComplete;
  }

  lemma OtherByte(mt: MessageType)
    requires !Known(mt)
    ensures ToByte(mt) == if |mt| > 0 then mt[0] else 0
  {
    hide TypeIntent, TypeFeatures, TypeToolRequest, TypeAck, TypeAuth, TypeChallenge, TypeAuthResponse,
      TypePolicyResult, TypeHeartbeat, TypeAudit, TypeChat, TypeComplete;
  }

  lemma FromByteKinds(b: byte)
    ensures Reserved(b) ==> Known(FromByte(b))
    ensures !Reserved(b) ==> FromByte(b) == Utf8(b)
  {
    hide TypeIntent, TypeFeatures, TypeToolRequest, TypeAck, TypeAuth, TypeChallenge, TypeAuthResponse,
      TypePolicyResult, TypeHeartbeat, TypeAudit, TypeChat, TypeComplete;
  }

  lemma TypeRoundTrip(mt: MessageType)
    ensures FromByte(ToByte(mt)) == mt <==> Survives(mt)
  {
    hide ToByte, FromByte, Known;
    if Known(mt) {
      NamedRoundTrip(mt);
    } else {
      OtherByte(mt);
      FromByteKinds(ToByte(mt));
    }
  }

  /** Which wire bytes a type decoded from them is sent as again. */
  lemma ByteRoundTrip(b: byte)
    ensures ToByte(FromByte(b)) == b <==> b < 128 || b == 0xC3
  {
    hide TypeIntent, TypeFeatures, TypeToolRequest, TypeAck, TypeAuth, TypeChallenge, TypeAuthResponse,
      TypePolicyResult, TypeHeartbeat, TypeAudit, TypeChat, TypeComplete;
    NamedTypesDiffer();
  }

  /** The names of the types and the letters they travel as, both ways. */
  lemma WireLetters()
    ensures ToByte(Ascii("intent")) == 'i' as int && FromByte('i' as int) == Ascii("intent")
    ensures ToByte(Ascii("features")) == 'f' as int && FromByte('f' as int) == Ascii("features")
    ensures ToByte(Ascii("tool_request")) == 't' as int && FromByte('t' as int) == Ascii("tool_request")
    ensures ToByte(Ascii("ack")) == 'a' as int && FromByte('a' as int) == Ascii("ack")
    ensures ToByte(Ascii("auth")) == 'A' as int && FromByte('A' as int) == Ascii("auth")
    ensures ToByte(Ascii("challenge")) == 'H' as int && FromByte('H' as int) == Ascii("challenge")
    ensures ToByte(Ascii("auth_response")) == 'R' as int && FromByte('R' as int) == Ascii("auth_response")
    ensures ToByte(Ascii("policy_result")) == 'p' as int && FromByte('p' as int) == Ascii("policy_result")
    ensures ToByte(Ascii("heartbeat")) == 'h' as int && FromByte('h' as int) == Ascii("heartbeat")
    ensures ToByte(Ascii("audit")) == 'u' as int && FromByte('u' as int) == Ascii("audit")
    ensures ToByte(Ascii("chat")) == 'c' as int && FromByte('c' as int) == Ascii("chat")
    ensures ToByte(Ascii("complete")) == 'C' as int && FromByte('C' as int) == Ascii("complete")
  {
    assert TypeIntent() == Ascii("intent") && TypeFeatures() == Ascii("features");
    assert TypeToolRequest() == Ascii("tool_request") && TypeAck() == Ascii("ack");
    assert TypeAuth() == Ascii("auth") && TypeChallenge() == Ascii("challenge");
    assert TypeAuthResponse() == Ascii("auth_response") && TypePolicyResult() == Ascii("policy_result");
    assert TypeHeartbeat() == Ascii("heartbeat") && TypeAudit() == Ascii("audit");
    assert TypeChat() == Ascii("chat") && TypeComplete() == Ascii("complete");
    hide TypeIntent, TypeFeatures, TypeToolRequest, TypeAck, TypeAuth, TypeChallenge, TypeAuthResponse,
      TypePolicyResult, TypeHeartbeat, TypeAudit, TypeChat, TypeComplete;
    NamedTypesDiffer();
  }

  /** The letters the C SDK's EIPC_MSG macros define are the bytes the Go side uses for the same types. */
  lemma SdkLettersAgree()
    ensures ToByte(TypeIntent()) == 'i' as int && ToByte(TypeFeatures()) == 'f' as int
    ensures ToByte(TypeToolRequest()) == 't' as int && ToByte(TypeAck()) == 'a' as int
    ensures ToByte(TypePolicyResult()) == 'p' as int && ToByte(TypeHeartbeat()) == 'h' as int
    ensures ToByte(TypeAudit()) == 'u' as int && ToByte(TypeChat()) == 'c' as int
    ensures ToByte(TypeComplete()) == 'C' as int
  {
    hide TypeIntent, TypeFeatures, TypeToolRequest, TypeAck, TypeAuth, TypeChallenge, TypeAuthResponse,
      TypePolicyResult, TypeHeartbeat, TypeAudit, TypeChat, TypeComplete;
    NamedTypesDiffer();
  }
}
