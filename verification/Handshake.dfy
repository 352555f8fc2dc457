/** The CNXN/AUTH handshake of protocol/connection.go against any peer. */
module Handshake {
  import opened Bytes
  import opened Framing

  /** A host credential; a missing one is a nil entry of the list. */
  datatype Credential = Missing | Credential(hasSigner: bool, publicKey: seq<Byte>)

  /** Signing with credential i: SHA-1 and RSA are left abstract. */
  type Signer = (nat, seq<Byte>) -> Option<seq<Byte>>

  /** What the peer's n-th response turns out to be. */
  datatype Response = Received(m: Message) | ReadFails

  datatype Reply = Send(m: Message) | NoReply | CannotSign

  datatype Outcome =
    | Connected(m: Message)
    | AuthRequired(m: Message)
    | SignFailed
    | ReadFailed
    | WriteFailed
    | Unexpected(command: U32)

  predicate Signable(c: Credential) {
    c.Credential? && c.hasSigner
  }

  predicate HasKey(c: Credential) {
    c.Credential? && c.publicKey != []
  }

  /** Indexes, from i on, of the credentials that can sign, in order. */
  function Signers(creds: seq<Credential>, i: nat): seq<nat>
    decreases |creds| - i
  {
    if i >= |creds| then []
    else (if Signable(creds[i]) then [i] else []) + Signers(creds, i + 1)
  }

  /** The first nonempty public key, from index i on. */
  function FirstKey(creds: seq<Credential>, i: nat): Option<seq<Byte>>
    decreases |creds| - i
  {
    if i >= |creds| then None
    else if HasKey(creds[i]) then Some(creds[i].publicKey)
    else FirstKey(creds, i + 1)
  }

  function Signature(sig: seq<Byte>): Message {
    Message(AUTH, AUTH_SIGNATURE, 0, sig)
  }

  function PublicKey(key: seq<Byte>): Message {
    Message(AUTH, AUTH_RSA_PUBLIC_KEY, 0, key)
  }

  /** The answer of credential i to a token. */
  function Answer(sign: Signer, i: nat, token: seq<Byte>): Reply {
    match sign(i, token)
    case None => CannotSign
    case Some(sig) => Send(Signature(sig))
  }

  function KeyOffer(creds: seq<Credential>): Reply {
    match FirstKey(creds, 0)
    case None => NoReply
    case Some(key) => Send(PublicKey(key))
  }

  /** The plan, fixed by the credentials alone: reply number k answers the k-th
      token with the k-th signer, and the reply after the last signer is the
      first public key. There is no further reply. */
  function Planned(creds: seq<Credential>, sign: Signer, k: nat, token: seq<Byte>): Reply {
    var signers := Signers(creds, 0);
    if k < |signers| then Answer(sign, signers[k], token)
    else if k == |signers| then KeyOffer(creds)
    else NoReply
  }

  /** The key that is offered is the first nonempty one, and none when there is none. */
  lemma {:induction false} FirstKeyIsFirst(creds: seq<Credential>, i: nat)
    ensures FirstKey(creds, i).Some? ==>
      exists c :: i <= c < |creds| && HasKey(creds[c]) && FirstKey(creds, i).value == creds[c].publicKey && forall d :: i <= d < c ==> !HasKey(creds[d])
    ensures FirstKey(creds, i).None? ==> forall d :: i <= d < |creds| ==> !HasKey(creds[d])
    decreases |creds| - i
  {
    hide HasKey;
    if i < |creds| && !HasKey(creds[i]) {
      FirstKeyIsFirst(creds, i + 1);
    } else if i < |creds| {
      assert HasKey(creds[i]);
    }
  }

  /** A reply on the wire: AUTH, type 2 for a signature and 3 for a key, and the bytes. */
  lemma RepliesOnTheWire(data: seq<Byte>)
    ensures Signature(data) == Message(0x48545541, 2, 0, data) && PublicKey(data) == Message(0x48545541, 3, 0, data)
  {
  }

  predicate IsToken(r: Response) {
    r.Received? && r.m.command == AUTH && r.m.arg0 == AUTH_TOKEN
  }

  lemma {:induction false} SignersBound(creds: seq<Credential>, i: nat)
    ensures |Signers(creds, i)| <= if i <= |creds| then |creds| - i else 0
    decreases |creds| - i
  {
    if i < |creds| {
      SignersBound(creds, i + 1);
    }
  }

  /** The signers are exactly the signable credentials, in increasing order. */
  lemma SignersAreSignable(creds: seq<Credential>, i: nat)
    ensures var s := Signers(creds, i);
            && (forall k :: 0 <= k < |s| ==> i <= s[k] < |creds| && Signable(creds[s[k]]))
            && (forall j, k :: 0 <= j < k < |s| ==> s[j] < s[k])
            && (forall c :: i <= c < |creds| && Signable(creds[c]) ==> c in s)
  {
    var s := Signers(creds, i);
    hide Signers, Signable;
    forall k | 0 <= k < |s| ensures i <= s[k] < |creds| && Signable(creds[s[k]]) { SignerAt(creds, i, k); }
    forall j, k | 0 <= j < k < |s| ensures s[j] < s[k] { SignersIncrease(creds, i, j, k); }
    forall c | i <= c < |creds| && Signable(creds[c]) ensures c in s { SignableSigns(creds, i, c); }
  }

  lemma {:induction false} SignerAt(creds: seq<Credential>, i: nat, k: nat)
    requires k < |Signers(creds, i)|
    ensures i <= Signers(creds, i)[k] < |creds| && Signable(creds[Signers(creds, i)[k]])
    decreases |creds| - i
  {
    hide Signable;
    if !Signable(creds[i]) {
      assert Signers(creds, i) == Signers(creds, i + 1);
      SignerAt(creds, i + 1, k);
    } else if k > 0 {
      SignerAt(creds, i + 1, k - 1);
    }
  }

  lemma {:induction false} SignersIncrease(creds: seq<Credential>, i: nat, j: nat, k: nat)
    requires j < k < |Signers(creds, i)|
    ensures Signers(creds, i)[j] < Signers(creds, i)[k]
    decreases |creds| - i
  {
    hide Signable;
    if !Signable(creds[i]) {
      assert Signers(creds, i) == Signers(creds, i + 1);
      SignersIncrease(creds, i + 1, j, k);
    } else if j > 0 {
      SignersIncrease(creds, i + 1, j - 1, k - 1);
    } else {
      SignerAt(creds, i + 1, k - 1);
    }
  }

  lemma {:induction false} SignableSigns(creds: seq<Credential>, i: nat, c: nat)
    requires i <= c < |creds| && Signable(creds[c])
    ensures c in Signers(creds, i)
    decreases |creds| - i
  {
    hide Signable;
    if i < c {
      SignableSigns(creds, i + 1, c);
    } else {
      assert Signers(creds, i)[0] == c;
    }
  }

  /** The two variables nextAuthReply updates through pointers. */
  class Progress {
    var credentialIndex: nat
    var publicKeyOffered: bool

    constructor ()
      ensures credentialIndex == 0 && !publicKeyOffered
    {
      credentialIndex, publicKeyOffered := 0, false;
    }

    /** Replies still possible. */
    function Left(creds: seq<Credential>): int
      reads this
    {
      |creds| - credentialIndex + if publicKeyOffered then 0 else 1
    }

    /** nextAuthReply: the next signer answers; after the last one the public key
        is offered once; after that there is no reply. */
    method NextAuthReply(creds: seq<Credential>, sign: Signer, token: seq<Byte>) returns (reply: Reply)
      requires credentialIndex <= |creds|
      modifies this
      ensures credentialIndex <= |creds|
      ensures var todo := Signers(creds, old(credentialIndex));
              if todo != [] then
                && Signers(creds, credentialIndex) == todo[1..]
                && publicKeyOffered == old(publicKeyOffered)
                && reply == Answer(sign, todo[0], token)
              else
                && credentialIndex == |creds| && publicKeyOffered
                && reply == if old(publicKeyOffered) then NoReply else KeyOffer(creds)
      ensures reply.Send? ==> Left(creds) < old(Left(creds))
      ensures Left(creds) >= 0
    {
      ghost var start := credentialIndex;
      while credentialIndex < |creds|
        invariant start <= credentialIndex <= |creds| && publicKeyOffered == old(publicKeyOffered)
        invariant Signers(creds, credentialIndex) == Signers(creds, start)
        decreases |creds| - credentialIndex
      {
        var i := credentialIndex;
        credentialIndex := credentialIndex + 1;
        if Signable(creds[i]) {
          assert Signers(creds, start) == [i] + Signers(creds, i + 1);
          match sign(i, token) {
            case None => return CannotSign;
            case Some(sig) => return Send(Signature(sig));
          }
        }
        assert Signers(creds, i) == [] + Signers(creds, i + 1);
      }
      if !publicKeyOffered {
        for i := 0 to |creds|
          invariant FirstKey(creds, i) == FirstKey(creds, 0)
          invariant !publicKeyOffered && credentialIndex == |creds|
        {
          if HasKey(creds[i]) {
            publicKeyOffered := true;
            return Send(PublicKey(creds[i].publicKey));
          }
        }
        publicKeyOffered := true;
      }
      return NoReply;
    }
  }

  lemma NoSignerLeft(creds: seq<Credential>)
    ensures Signers(creds, |creds|) == []
  {
  }

  /** The plan, in terms of the signers that are left. */
  lemma PlannedReply(creds: seq<Credential>, sign: Signer, k: nat, token: seq<Byte>)
    ensures k < |Signers(creds, 0)| ==> Signers(creds, 0)[k..] != [] && Signers(creds, 0)[k..][1..] == Signers(creds, 0)[k + 1..]
    ensures k < |Signers(creds, 0)| ==> Planned(creds, sign, k, token) == Answer(sign, Signers(creds, 0)[k..][0], token)
    ensures k == |Signers(creds, 0)| ==> Signers(creds, 0)[k..] == [] && Planned(creds, sign, k, token) == KeyOffer(creds)
    ensures k > |Signers(creds, 0)| ==> Planned(creds, sign, k, token) == NoReply
  {
    hide Signers, FirstKey;
  }

  /** After n replies, the peer's next response explains the outcome. */
  predicate EndsBy(creds: seq<Credential>, sign: Signer, outcome: Outcome, n: nat, last: Response) {
    match outcome
    case Connected(m) => last == Received(m) && m.command == CNXN
    case Unexpected(c) => last.Received? && last.m.command == c && c != CNXN && c != AUTH
    case ReadFailed => last == ReadFails
    case SignFailed => IsToken(last) && Planned(creds, sign, n, last.m.payload) == CannotSign
    case AuthRequired(m) =>
      && last == Received(m) && m.command == AUTH
      && (m.arg0 == AUTH_TOKEN ==> Planned(creds, sign, n, m.payload) == NoReply)
    case WriteFailed => n > 0
  }

  /** readHandshakeResponses against a peer whose n-th response is peer(n), over a
      transport whose n-th write succeeds when writes(n). It always returns, it
      follows the plan, and how it ends is fixed by the first response that does
      not continue the plan. */
  method ReadResponses(creds: seq<Credential>, sign: Signer, peer: nat -> Response, writes: nat -> bool)
    returns (outcome: Outcome, replies: seq<Message>)
    ensures |replies| <= |Signers(creds, 0)| + 1 <= |creds| + 1
    ensures forall k :: 0 <= k < |replies| ==>
              IsToken(peer(k)) && Planned(creds, sign, k, peer(k).m.payload) == Send(replies[k])
    ensures forall k :: 0 <= k < |replies| ==> (writes(k) <==> !(outcome == WriteFailed && k == |replies| - 1))
    ensures EndsBy(creds, sign, outcome, |replies|, peer(|replies|))
  {
    hide Planned, Signers, FirstKey, Answer;
    var progress := new Progress();
    replies := [];
    SignersBound(creds, 0);
    while true
      invariant progress.credentialIndex <= |creds|
      invariant if progress.publicKeyOffered
                then |replies| == |Signers(creds, 0)| + 1 && Signers(creds, progress.credentialIndex) == []
                else |replies| <= |Signers(creds, 0)| && Signers(creds, progress.credentialIndex) == Signers(creds, 0)[|replies|..]
      invariant forall k :: 0 <= k < |replies| ==>
                  writes(k) && IsToken(peer(k)) && Planned(creds, sign, k, peer(k).m.payload) == Send(replies[k])
      decreases progress.Left(creds)
    {
      var response := peer(|replies|);
      if response.ReadFails? {
        return ReadFailed, replies;
      }
      var m := response.m;
      if m.command == CNXN {
        return Connected(m), replies;
      }
      if m.command != AUTH {
        return Unexpected(m.command), replies;
      }
      if m.arg0 != AUTH_TOKEN {
        return AuthRequired(m), replies;
      }
      PlannedReply(creds, sign, |replies|, m.payload);
      NoSignerLeft(creds);
      var reply := progress.NextAuthReply(creds, sign, m.payload);
      assert reply == Planned(creds, sign, |replies|, m.payload);
      match reply {
        case CannotSign => return SignFailed, replies;
        case NoReply => return AuthRequired(m), replies;
        case Send(r) =>
          replies := replies + [r];
          if !writes(|replies| - 1) {
            return WriteFailed, replies;
          }
      }
    }
  }
}
