/**
 The five-part ticket token: built by the server, split by the server and by the mobile client, and checked
 against a key ring that rotates. Keys are numbers; `sign` is any signing function of key and payload, and a
 signature is good if it is the one the key gives.
 */
module TicketTokens {
  import opened Options
  import opened Base64Url

  // ------------------------------------------------------------------ splitting

  /** One character in front: a dot starts a new piece, any other lengthens the first. */
  function Prepend(c: char, parts: seq<string>): (r: seq<string>)
    requires parts != []
    ensures r != []
  {
    if c == '.' then [""] + parts else [[c] + parts[0]] + parts[1..]
  }

  /** JavaScript's split('.'): pieces between dots, empty ones included. */
  function Split(s: string): (parts: seq<string>)
    ensures parts != []
  {
    if s == "" then [""] else Prepend(s[0], Split(s[1..]))
  }

  function NonEmpty(parts: seq<string>): seq<string> {
    if parts == [] then [] else (if parts[0] == "" then [] else [parts[0]]) + NonEmpty(parts[1..])
  }

  /** Swift's split(separator: "."), which omits empty pieces. */
  function SwiftSplit(s: string): seq<string> {
    NonEmpty(Split(s))
  }

  lemma {:induction false} SplitDotFree(s: string)
    requires '.' !in s
    ensures Split(s) == [s]
    decreases |s|
  {
    if s != "" {
      SplitDotFree(s[1..]);
      assert [s[0]] + s[1..] == s;
    }
  }

  lemma PrependConcat(c: char, a: seq<string>, b: seq<string>)
    requires a != []
    ensures Prepend(c, a + b) == Prepend(c, a) + b
  {}

  /** A dot between two texts separates their pieces. */
  lemma {:induction false} SplitAtDot(s: string, t: string)
    ensures Split(s + "." + t) == Split(s) + Split(t)
    decreases |s|
  {
    var u := s + "." + t;
    if s == "" {
      assert u[0] == '.' && u[1..] == t;
    } else {
      assert u[0] == s[0] && u[1..] == s[1..] + "." + t;
      SplitAtDot(s[1..], t);
      PrependConcat(s[0], Split(s[1..]), Split(t));
    }
  }

  // ------------------------------------------------------------ building a token

  const PREFIX := "ed25519.v1."

  function Token(kid: string, sig: string, payload: string): string {
    PREFIX + kid + "." + sig + "." + payload
  }

  lemma FixedPieces()
    ensures Split("ed25519") == ["ed25519"] && Split("v1") == ["v1"]
  {
    SplitDotFree("ed25519");
    SplitDotFree("v1");
  }

  lemma PrefixSplits(rest: string)
    ensures Split(PREFIX + rest) == ["ed25519", "v1"] + Split(rest)
  {
    var alg, ver := "ed25519", "v1";
    assert PREFIX + rest == alg + "." + (ver + "." + rest);
    SplitAtDot(alg, ver + "." + rest);
    SplitAtDot(ver, rest);
    FixedPieces();
  }

  lemma TokenSplits(kid: string, sig: string, payload: string)
    requires '.' !in sig && '.' !in payload
    ensures Split(Token(kid, sig, payload)) == ["ed25519", "v1"] + Split(kid) + [sig, payload]
  {
    var rest := kid + "." + (sig + "." + payload);
    assert Token(kid, sig, payload) == PREFIX + rest;
    PrefixSplits(rest);
    SplitAtDot(kid, sig + "." + payload);
    SplitAtDot(sig, payload);
    SplitDotFree(sig);
    SplitDotFree(payload);
  }

  lemma {:induction false} OnePieceIffDotFree(s: string)
    ensures |Split(s)| == 1 <==> '.' !in s
    decreases |s|
  {
    if s != "" {
      OnePieceIffDotFree(s[1..]);
      assert s == [s[0]] + s[1..];
    }
  }

  /** The server gets its five parts back exactly when the key id has no dot, and then they are the right ones. */
  lemma ServerRecoversParts(kid: string, sig: string, payload: string)
    requires '.' !in sig && '.' !in payload
    ensures |Split(Token(kid, sig, payload))| == 5 <==> '.' !in kid
    ensures '.' !in kid ==> Split(Token(kid, sig, payload)) == ["ed25519", "v1", kid, sig, payload]
  {
    TokenSplits(kid, sig, payload);
    OnePieceIffDotFree(kid);
    if '.' !in kid { SplitDotFree(kid); }
  }

  /** The mobile client, which drops empty pieces, also needs all three parts to be non-empty. */
  lemma ClientRecoversParts(kid: string, sig: string, payload: string)
    requires '.' !in sig && '.' !in payload && '.' !in kid
    ensures |SwiftSplit(Token(kid, sig, payload))| == 5 <==> kid != "" && sig != "" && payload != ""
    ensures kid != "" && sig != "" && payload != "" ==>
              SwiftSplit(Token(kid, sig, payload)) == ["ed25519", "v1", kid, sig, payload]
  {
    ServerRecoversParts(kid, sig, payload);
    var p := ["ed25519", "v1", kid, sig, payload];
    assert p[1..] == ["v1", kid, sig, payload] && p[2..] == [kid, sig, payload];
    assert p[3..] == [sig, payload] && p[4..] == [payload];
    assert NonEmpty(p[4..]) == if payload == "" then [] else [payload];
    assert NonEmpty(p[3..]) == (if sig == "" then [] else [sig]) + NonEmpty(p[4..]);
    assert NonEmpty(p[2..]) == (if kid == "" then [] else [kid]) + NonEmpty(p[3..]);
    assert NonEmpty(p[1..]) == ["v1"] + NonEmpty(p[2..]);
    assert NonEmpty(p) == ["ed25519"] + NonEmpty(p[1..]);
  }

  // ------------------------------------------------------------------- key ring

  type Key = nat

  /** `keys` maps key ids to key pairs; `active` is the id new tokens are signed with. */
  datatype Ring = Ring(keys: map<string, Key>, active: Option<string>)

  predicate RingOk(r: Ring) {
    r.active.Some? ==> r.active.value in r.keys
  }

  /** ensureInitializedFromEnv; `key` is the configured key or, without one, a freshly generated one. */
  function Initialized(r: Ring, envKid: string, key: Key): Ring {
    if envKid in r.keys then (if r.active.None? then r.(active := Some(envKid)) else r)
    else Ring(r.keys[envKid := key], Some(envKid))
  }

  function Rotated(r: Ring, kid: string, key: Key): Ring {
    Ring(r.keys[kid := key], Some(kid))
  }

  class Keyring {
    var keys: map<string, Key>
    var active: Option<string>

    ghost function State(): Ring
      reads this
    {
      Ring(keys, active)
    }

    constructor ()
      ensures State() == Ring(map[], None)
    {
      keys, active := map[], None;
    }

    method GetOrCreateKeyPair(envKid: string, key: Key) returns (kid: string, pair: Key)
      requires RingOk(State())
      modifies this
      ensures State() == Initialized(old(State()), envKid, key) && RingOk(State())
      ensures active == Some(kid) && kid in keys && keys[kid] == pair
    {
      if envKid in keys {
        if active.None? { active := Some(envKid); }
      } else {
        keys := keys[envKid := key];
        active := Some(envKid);
      }
      return active.value, keys[active.value];
    }

    method RotateKeyPair(kid: string, key: Key)
      modifies this
      ensures State() == Rotated(old(State()), kid, key) && RingOk(State())
    {
      keys := keys[kid := key];
      active := Some(kid);
    }

    method GetPublicKeyByKid(kid: string) returns (key: Option<Key>)
      ensures key == Lookup(keys, kid)
    {
      if kid in keys { return Some(keys[kid]); }
      return None;
    }
  }

  type Signer = (Key, seq<Byte>) -> seq<Byte>

  /** What POST /v1/tickets/issue hands out for a payload. */
  function Issue(r: Ring, sign: Signer, payload: seq<Byte>): string
    requires r.active.Some? && r.active.value in r.keys
  {
    Token(r.active.value, B64Url(sign(r.keys[r.active.value], payload)), B64Url(payload))
  }

  /** The signature check of POST /v1/verification/redeem; an unknown key id falls back to the active key. */
  function Verify(r: Ring, sign: Signer, token: string): Option<seq<Byte>>
    requires r.active.Some? && r.active.value in r.keys
  {
    if !(PREFIX <= token) then None
    else
      var parts := Split(token);
      if |parts| != 5 then None
      else
        var payload := NodeDecode(parts[4]);
        var key := if parts[2] in r.keys then r.keys[parts[2]] else r.keys[r.active.value];
        if NodeDecodeSignature(parts[3]) == sign(key, payload) then Some(payload) else None
  }

  /** A token signed with `key` under `kid` verifies exactly when the ring's key for `kid` signs the same. */
  lemma VerifiesIffSameSignature(r: Ring, sign: Signer, kid: string, key: Key, payload: seq<Byte>)
    requires RingOk(r) && r.active.Some? && kid in r.keys && '.' !in kid
    ensures var token := Token(kid, B64Url(sign(key, payload)), B64Url(payload));
            Verify(r, sign, token) == if sign(key, payload) == sign(r.keys[kid], payload) then Some(payload) else None
  {
    var sig, body := B64Url(sign(key, payload)), B64Url(payload);
    UrlIsDotFree(sign(key, payload));
    UrlIsDotFree(payload);
    ServerRecoversParts(kid, sig, body);
    NodeRoundTrip(payload);
    NodeRoundTrip(sign(key, payload));
    assert Token(kid, sig, body) == PREFIX + (kid + "." + sig + "." + body);
  }

  /** The pieces, with a dot between each two. */
  function Joined(parts: seq<string>): string
    requires parts != []
  {
    if |parts| == 1 then parts[0] else parts[0] + "." + Joined(parts[1..])
  }

  lemma {:induction false} SplitIsJoined(s: string)
    ensures Joined(Split(s)) == s && forall p :: p in Split(s) ==> '.' !in p
    decreases |s|
  {
    if s != "" {
      SplitIsJoined(s[1..]);
      var rest, parts := Split(s[1..]), Split(s);
      if s[0] == '.' {
        assert parts[1..] == rest;
      } else {
        assert parts[1..] == rest[1..] && parts[0] == [s[0]] + rest[0];
        assert |rest| > 1 ==> Joined(parts) == [s[0]] + rest[0] + "." + Joined(rest[1..]);
      }
      assert s == [s[0]] + s[1..];
    }
  }

  /** Three dot-free texts make up the token behind the fixed start, and the signature is that of the payload. */
  ghost predicate IsSigned(r: Ring, sign: Signer, token: string, kid: string, sig: string, body: string)
    requires r.active.Some? && r.active.value in r.keys
  {
    && '.' !in kid && '.' !in sig && '.' !in body
    && token == "ed25519.v1." + kid + "." + sig + "." + body
    && NodeDecodeSignature(sig)
       == sign(if kid in r.keys then r.keys[kid] else r.keys[r.active.value], NodeDecode(body))
  }

  /**
   Which texts verify, of all texts, and to what: those that start with "ed25519.v1.", go on with three dot-free parts
   and carry in the second of them the signature of the decoded third, under the key the first part names or, if the
   ring does not know it, the active one.
   */
  lemma VerifiesIff(r: Ring, sign: Signer, token: string, payload: seq<Byte>)
    requires r.active.Some? && r.active.value in r.keys
    ensures Verify(r, sign, token) == Some(payload)
            <==> exists kid, sig, body :: IsSigned(r, sign, token, kid, sig, body) && NodeDecode(body) == payload
  {
    if kid, sig, body :| IsSigned(r, sign, token, kid, sig, body) && NodeDecode(body) == payload {
      assert token == Token(kid, sig, body) == PREFIX + (kid + "." + sig + "." + body);
      ServerRecoversParts(kid, sig, body);
    }
    if Verify(r, sign, token) == Some(payload) {
      var parts := Split(token);
      FiveParts(token);
      assert IsSigned(r, sign, token, parts[2], parts[3], parts[4]);
    }
  }

  lemma FiveParts(token: string)
    requires PREFIX <= token && |Split(token)| == 5
    ensures var parts := Split(token);
            && token == "ed25519.v1." + parts[2] + "." + parts[3] + "." + parts[4]
            && '.' !in parts[2] && '.' !in parts[3] && '.' !in parts[4]
  {
    var rest := token[|PREFIX|..];
    assert token == PREFIX + rest;
    PrefixSplits(rest);
    SplitIsJoined(rest);
    var parts, three := Split(token), Split(rest);
    assert parts[2] == three[0] && parts[3] == three[1] && parts[4] == three[2] && |three| == 3;
    assert three[1..][1..] == [three[2]] && |three[1..]| == 2;
    assert Joined(three[1..]) == three[1] + "." + three[2];
    assert rest == three[0] + "." + (three[1] + "." + three[2]);
  }

  /** A key id with a dot in it makes every token it signs unverifiable. */
  lemma DottedKidNeverVerifies(r: Ring, sign: Signer, payload: seq<Byte>)
    requires RingOk(r) && r.active.Some? && '.' in r.active.value
    ensures Verify(r, sign, Issue(r, sign, payload)) == None
  {
    UrlIsDotFree(sign(r.keys[r.active.value], payload));
    UrlIsDotFree(payload);
    ServerRecoversParts(r.active.value, B64Url(sign(r.keys[r.active.value], payload)), B64Url(payload));
  }

  // ------------------------------------------------------------------- rotation

  datatype RingOp = Initialize(envKid: string, key: Key) | Rotate(kid: string, key: Key)

  function ApplyOp(r: Ring, op: RingOp): Ring {
    match op
    case Initialize(envKid, key) => Initialized(r, envKid, key)
    case Rotate(kid, key) => Rotated(r, kid, key)
  }

  function ApplyAll(r: Ring, ops: seq<RingOp>): Ring
    decreases |ops|
  {
    if ops == [] then r else ApplyAll(ApplyOp(r, ops[0]), ops[1..])
  }

  /** No rotation reuses the key id. */
  predicate KidSpared(ops: seq<RingOp>, kid: string) {
    forall op :: op in ops && op.Rotate? ==> op.kid != kid
  }

  lemma {:induction false} KeyKept(r: Ring, ops: seq<RingOp>, kid: string)
    requires RingOk(r) && kid in r.keys && KidSpared(ops, kid)
    requires r.active.Some?
    ensures var r' := ApplyAll(r, ops); RingOk(r') && r'.active.Some? && kid in r'.keys && r'.keys[kid] == r.keys[kid]
    decreases |ops|
  {
    if ops != [] {
      assert ops[0] in ops;
      KeyKept(ApplyOp(r, ops[0]), ops[1..], kid);
    }
  }

  /**
   A token keeps verifying, to the payload it was issued for, through any initialisations and rotations that spare
   its key id.
   */
  lemma TokenSurvivesRotations(r: Ring, sign: Signer, payload: seq<Byte>, ops: seq<RingOp>)
    requires RingOk(r) && r.active.Some? && '.' !in r.active.value && KidSpared(ops, r.active.value)
    ensures var r' := ApplyAll(r, ops);
            RingOk(r') && r'.active.Some? && Verify(r', sign, Issue(r, sign, payload)) == Some(payload)
  {
    var kid := r.active.value;
    KeyKept(r, ops, kid);
    VerifiesIffSameSignature(ApplyAll(r, ops), sign, kid, r.keys[kid], payload);
  }

  /**
   Rotation ids come from the clock, so two rotations can share one. With a signing function that tells keys
   apart, one rotation to a new key spares a token exactly when its id differs from the token's.
   */
  lemma RotationBreaksTokenIff(r: Ring, sign: Signer, payload: seq<Byte>, kid: string, key: Key)
    requires RingOk(r) && r.active.Some? && '.' !in r.active.value
    requires key != r.keys[r.active.value]
    requires forall k1: Key, k2: Key :: sign(k1, payload) == sign(k2, payload) ==> k1 == k2
    ensures Verify(Rotated(r, kid, key), sign, Issue(r, sign, payload)) == Some(payload) <==> kid != r.active.value
  {
    VerifiesIffSameSignature(Rotated(r, kid, key), sign, r.active.value, r.keys[r.active.value], payload);
  }

  /** The key id an operation puts into the ring if it is not there yet. */
  function Names(op: RingOp): string {
    match op
    case Initialize(envKid, _) => envKid
    case Rotate(kid, _) => kid
  }

  ghost predicate IsNamed(ops: seq<RingOp>, kid: string) {
    exists op :: op in ops && Names(op) == kid
  }

  lemma NamedFirst(ops: seq<RingOp>, kid: string)
    requires ops != []
    ensures IsNamed(ops, kid) <==> Names(ops[0]) == kid || IsNamed(ops[1..], kid)
  {
    if op :| op in ops && Names(op) == kid { assert op == ops[0] || op in ops[1..]; }
    if op :| op in ops[1..] && Names(op) == kid { assert op in ops; }
    assert ops[0] in ops;
  }

  lemma {:induction false} KnownAfter(r: Ring, ops: seq<RingOp>, kid: string)
    ensures kid in ApplyAll(r, ops).keys <==> kid in r.keys || IsNamed(ops, kid)
    decreases |ops|
  {
    if ops != [] {
      KnownAfter(ApplyOp(r, ops[0]), ops[1..], kid);
      NamedFirst(ops, kid);
    }
  }

  lemma {:induction false} ApplyAllConcat(r: Ring, a: seq<RingOp>, b: seq<RingOp>)
    ensures ApplyAll(r, a + b) == ApplyAll(ApplyAll(r, a), b)
    decreases |a|
  {
    if a == [] {
      assert a + b == b;
    } else {
      assert (a + b)[1..] == a[1..] + b;
      ApplyAllConcat(ApplyOp(r, a[0]), a[1..], b);
    }
  }

  /** Once the configured id is in the ring and some id is active, initialising changes nothing. */
  lemma {:induction false} InitializingIsInert(r: Ring, uses: seq<RingOp>, envKid: string)
    requires envKid in r.keys && r.active.Some? && forall op :: op in uses ==> op.Initialize? && op.envKid == envKid
    ensures ApplyAll(r, uses) == r
    decreases |uses|
  {
    if uses != [] {
      assert uses[0] in uses;
      InitializingIsInert(r, uses[1..], envKid);
    }
  }

  /**
   A rotation stays in force over any later uses of the ring iff there are none, or the configured key id was in
   the ring before it, or it is that very id. Otherwise the first use makes the configured key active again.
   */
  lemma RotationLastsIff(r: Ring, before: seq<RingOp>, kid: string, key: Key, uses: seq<RingOp>, envKid: string)
    requires forall op :: op in uses ==> op.Initialize? && op.envKid == envKid
    ensures ApplyAll(r, before + [Rotate(kid, key)] + uses).active == Some(kid)
            <==> uses == [] || kid == envKid || envKid in r.keys || IsNamed(before, envKid)
    ensures var after := ApplyAll(r, before + [Rotate(kid, key)] + uses);
            && (after.active == Some(kid) || after.active == Some(envKid))
            && (uses != [] ==>
                  envKid in after.keys
                  && after.keys[envKid]
                     == if envKid in ApplyAll(r, before + [Rotate(kid, key)]).keys
                        then ApplyAll(r, before + [Rotate(kid, key)]).keys[envKid] else uses[0].key)
  {
    var r0 := ApplyAll(r, before);
    var r1 := Rotated(r0, kid, key);
    ApplyAllConcat(r, before + [Rotate(kid, key)], uses);
    ApplyAllConcat(r, before, [Rotate(kid, key)]);
    assert [Rotate(kid, key)][1..] == [];
    assert ApplyAll(r0, [Rotate(kid, key)]) == r1;
    KnownAfter(r, before, envKid);
    if envKid in r1.keys {
      InitializingIsInert(r1, uses, envKid);
    } else if uses != [] {
      assert uses[0] in uses;
      InitializingIsInert(ApplyOp(r1, uses[0]), uses[1..], envKid);
    }
  }
}
