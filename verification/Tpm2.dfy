/**
 The TPM 2.0 client (quantra-ramfs/src/tpm2.rs, and the PCR extend command of
 quantra-ramfs/src/measured_boot.rs).  The commands are read by an independent
 decoder that follows sections 11.1, 12.2, 12.7, 22.2, 23.7 and 28.4 of the
 TPM 2.0 Library, Part 3; every builder is proved against it.
 */
module Tpm2 {
  import opened Bytes
  import opened Optional

  const ST_NO_SESSIONS: U16 := 0x8001
  const ST_SESSIONS: U16 := 0x8002
  const CC_START_AUTH_SESSION: U32 := 0x0176
  const CC_POLICY_PCR: U32 := 0x017F
  const CC_UNSEAL: U32 := 0x015E
  const CC_FLUSH_CONTEXT: U32 := 0x0165
  const CC_LOAD: U32 := 0x0157
  const CC_PCR_EXTEND: U32 := 0x0182
  const SE_POLICY: Byte := 1
  const ALG_NULL: U16 := 0x0010
  const ALG_SHA256: U16 := 0x000B
  const RH_NULL: U32 := 0x40000007
  const RS_PW: U32 := 0x40000009
  const RC_SUCCESS: U32 := 0

  datatype Auth = Auth(session: U32, nonce: seq<Byte>, attributes: Byte, hmac: seq<Byte>)

  datatype Command =
    | Load(parent: U32, auth: Auth, private: seq<Byte>, public: seq<Byte>)
    | StartAuthSession(tpmKey: U32, bind: U32, nonce: seq<Byte>, salt: seq<Byte>, kind: Byte, symmetric: U16, hash: U16)
    | PolicyPcr(session: U32, digest: seq<Byte>, hash: U16, select: seq<Byte>)
    | Unseal(item: U32, auth: Auth)
    | FlushContext(handle: U32)
    | PcrExtend(pcr: U32, auth: Auth, hash: U16, digest: seq<Byte>)

  // ------------------------------------------------------------------- reading

  function Take(s: seq<Byte>, n: nat): Option<(seq<Byte>, seq<Byte>)> {
    if |s| < n then None else Some((s[..n], s[n..]))
  }

  function Take8(s: seq<Byte>): Option<(Byte, seq<Byte>)> {
    if |s| < 1 then None else Some((s[0], s[1..]))
  }

  function Take16(s: seq<Byte>): Option<(U16, seq<Byte>)> {
    if |s| < 2 then None else Some((Read16(s, 0), s[2..]))
  }

  function Take32(s: seq<Byte>): Option<(U32, seq<Byte>)> {
    if |s| < 4 then None else Some((Read32(s, 0), s[4..]))
  }

  /** A TPM2B: a 16-bit size and that many bytes. */
  function TakeSized(s: seq<Byte>): (r: Option<(seq<Byte>, seq<Byte>)>)
    ensures r.Some? ==> |r.value.0| < 0x1_0000
  {
    var (n, s) :- Take16(s);
    Take(s, n)
  }

  /** One TPMS_AUTH_COMMAND. */
  function TakeAuth(s: seq<Byte>): Option<(Auth, seq<Byte>)> {
    var (session, s) :- Take32(s);
    var (nonce, s) :- TakeSized(s);
    var (attributes, s) :- Take8(s);
    var (hmac, s) :- TakeSized(s);
    Some((Auth(session, nonce, attributes, hmac), s))
  }

  /** An authorization area: its byte size, then exactly one authorization. */
  function TakeAuthArea(s: seq<Byte>): Option<(Auth, seq<Byte>)> {
    var (n, s) :- Take32(s);
    var (area, s) :- Take(s, n);
    var (auth, left) :- TakeAuth(area);
    if left == [] then Some((auth, s)) else None
  }

  function TakeLoad(s: seq<Byte>): Option<(Command, seq<Byte>)> {
    var (parent, s) :- Take32(s);
    var (auth, s) :- TakeAuthArea(s);
    var (private, s) :- TakeSized(s);
    var (public, s) :- TakeSized(s);
    Some((Load(parent, auth, private, public), s))
  }

  function TakeStartAuthSession(s: seq<Byte>): Option<(Command, seq<Byte>)> {
    var (tpmKey, s) :- Take32(s);
    var (bind, s) :- Take32(s);
    var (nonce, s) :- TakeSized(s);
    var (salt, s) :- TakeSized(s);
    var (kind, s) :- Take8(s);
    var (symmetric, s) :- Take16(s);
    var (hash, s) :- Take16(s);
    Some((StartAuthSession(tpmKey, bind, nonce, salt, kind, symmetric, hash), s))
  }

  function TakePolicyPcr(s: seq<Byte>): Option<(Command, seq<Byte>)> {
    var (session, s) :- Take32(s);
    var (digest, s) :- TakeSized(s);
    var (count, s) :- Take32(s);
    var (hash, s) :- Take16(s);
    var (n, s) :- Take8(s);
    var (select, s) :- Take(s, n);
    if count == 1 then Some((PolicyPcr(session, digest, hash, select), s)) else None
  }

  function TakeUnseal(s: seq<Byte>): Option<(Command, seq<Byte>)> {
    var (item, s) :- Take32(s);
    var (auth, s) :- TakeAuthArea(s);
    Some((Unseal(item, auth), s))
  }

  function TakeFlushContext(s: seq<Byte>): Option<(Command, seq<Byte>)> {
    var (handle, s) :- Take32(s);
    Some((FlushContext(handle), s))
  }

  function TakePcrExtend(s: seq<Byte>): Option<(Command, seq<Byte>)> {
    var (pcr, s) :- Take32(s);
    var (auth, s) :- TakeAuthArea(s);
    var (count, s) :- Take32(s);
    var (hash, s) :- Take16(s);
    var (digest, s) :- Take(s, 32);
    if count == 1 && hash == ALG_SHA256 then Some((PcrExtend(pcr, auth, hash, digest), s)) else None
  }

  function DecodeBody(tag: U16, cc: U32, s: seq<Byte>): Option<(Command, seq<Byte>)> {
    if cc == CC_LOAD && tag == ST_SESSIONS then TakeLoad(s)
    else if cc == CC_START_AUTH_SESSION && tag == ST_NO_SESSIONS then TakeStartAuthSession(s)
    else if cc == CC_POLICY_PCR && tag == ST_NO_SESSIONS then TakePolicyPcr(s)
    else if cc == CC_UNSEAL && tag == ST_SESSIONS then TakeUnseal(s)
    else if cc == CC_FLUSH_CONTEXT && tag == ST_NO_SESSIONS then TakeFlushContext(s)
    else if cc == CC_PCR_EXTEND && tag == ST_SESSIONS then TakePcrExtend(s)
    else None
  }

  /** The command a TPM reads: the size field must be the byte count and nothing may be left over. */
  function Decode(cmd: seq<Byte>): Option<Command> {
    var (tag, s) :- Take16(cmd);
    var (size, s) :- Take32(s);
    var (cc, s) :- Take32(s);
    var (command, left) :- DecodeBody(tag, cc, s);
    if size == |cmd| && left == [] then Some(command) else None
  }

  // ------------------------------------------------------------------ read back

  function Sized(data: seq<Byte>): (r: seq<Byte>)
    requires |data| < 0x1_0000
    ensures |r| == 2 + |data|
  {
    Be16(|data|) + data
  }

  lemma Took(x: seq<Byte>, rest: seq<Byte>)
    ensures Take(x + rest, |x|) == Some((x, rest))
  {
    assert (x + rest)[..|x|] == x && (x + rest)[|x|..] == rest;
  }

  lemma Took8(x: Byte, rest: seq<Byte>)
    ensures Take8([x] + rest) == Some((x, rest))
  {
  }

  lemma Took16(x: U16, rest: seq<Byte>)
    ensures Take16(Be16(x) + rest) == Some((x, rest))
  {
    var s := Be16(x) + rest;
    assert s[0..2] == Be16(x) && s[2..] == rest;
  }

  lemma Took32(x: U32, rest: seq<Byte>)
    ensures Take32(Be32(x) + rest) == Some((x, rest))
  {
    var s := Be32(x) + rest;
    assert s[0..4] == Be32(x) && s[4..] == rest;
  }

  lemma TookSized(x: seq<Byte>, rest: seq<Byte>)
    requires |x| < 0x1_0000
    ensures TakeSized(Sized(x) + rest) == Some((x, rest))
  {
    assert Sized(x) + rest == Be16(|x|) + (x + rest);
    Took16(|x|, x + rest);
    Took(x, rest);
  }

  predicate AuthOk(a: Auth) { |a.nonce| < 0x1_0000 && |a.hmac| < 0x1_0000 }

  function AuthBytes(a: Auth): seq<Byte>
    requires AuthOk(a)
  {
    Be32(a.session) + (Sized(a.nonce) + ([a.attributes] + Sized(a.hmac)))
  }

  lemma TookAuth(a: Auth)
    requires AuthOk(a)
    ensures TakeAuth(AuthBytes(a)) == Some((a, []))
  {
    hide Take32, TakeSized, Take8, Sized;
    Took32(a.session, Sized(a.nonce) + ([a.attributes] + Sized(a.hmac)));
    TookSized(a.nonce, [a.attributes] + Sized(a.hmac));
    Took8(a.attributes, Sized(a.hmac));
    assert Sized(a.hmac) + [] == Sized(a.hmac);
    TookSized(a.hmac, []);
  }

  lemma TookAuthArea(a: Auth, rest: seq<Byte>)
    requires AuthOk(a)
    ensures |AuthBytes(a)| < 0x1_0000_0000
    ensures TakeAuthArea(Be32(|AuthBytes(a)|) + (AuthBytes(a) + rest)) == Some((a, rest))
  {
    var area := AuthBytes(a);
    assert |area| == 9 + |a.nonce| + |a.hmac|;
    hide Take32, Take, TakeAuth, AuthBytes;
    Took32(|area|, area + rest);
    Took(area, rest);
    TookAuth(a);
  }

  predicate Ok(c: Command) {
    match c
    case Load(_, auth, private, public) => AuthOk(auth) && |private| < 0x1_0000 && |public| < 0x1_0000
    case StartAuthSession(_, _, nonce, salt, _, _, _) => |nonce| < 0x1_0000 && |salt| < 0x1_0000
    case PolicyPcr(_, digest, _, select) => |digest| < 0x1_0000 && |select| < 256
    case Unseal(_, auth) => AuthOk(auth)
    case FlushContext(_) => true
    case PcrExtend(_, auth, hash, digest) => AuthOk(auth) && hash == ALG_SHA256 && |digest| == 32
  }

  function Tag(c: Command): U16 {
    if c.Load? || c.Unseal? || c.PcrExtend? then ST_SESSIONS else ST_NO_SESSIONS
  }

  function Code(c: Command): U32 {
    match c
    case Load(_, _, _, _) => CC_LOAD
    case StartAuthSession(_, _, _, _, _, _, _) => CC_START_AUTH_SESSION
    case PolicyPcr(_, _, _, _) => CC_POLICY_PCR
    case Unseal(_, _) => CC_UNSEAL
    case FlushContext(_) => CC_FLUSH_CONTEXT
    case PcrExtend(_, _, _, _) => CC_PCR_EXTEND
  }

  function AuthArea(a: Auth): (r: seq<Byte>)
    requires AuthOk(a)
    ensures |r| == 13 + |a.nonce| + |a.hmac|
  {
    assert |AuthBytes(a)| == 9 + |a.nonce| + |a.hmac|;
    Be32(|AuthBytes(a)|) + AuthBytes(a)
  }

  /** The handles, authorizations and parameters of a command. */
  function Body(c: Command): (r: seq<Byte>)
    requires Ok(c)
    ensures |r| < 0x5_0000
  {
    match c
    case Load(parent, auth, private, public) => Be32(parent) + (AuthArea(auth) + (Sized(private) + Sized(public)))
    case StartAuthSession(tpmKey, bind, nonce, salt, kind, symmetric, hash) =>
      Be32(tpmKey) + (Be32(bind) + (Sized(nonce) + (Sized(salt) + ([kind] + (Be16(symmetric) + Be16(hash))))))
    case PolicyPcr(session, digest, hash, select) =>
      Be32(session) + (Sized(digest) + (Be32(1) + (Be16(hash) + ([|select|] + select))))
    case Unseal(item, auth) => Be32(item) + AuthArea(auth)
    case FlushContext(handle) => Be32(handle)
    case PcrExtend(pcr, auth, hash, digest) => Be32(pcr) + (AuthArea(auth) + (Be32(1) + (Be16(hash) + digest)))
  }

  function Marshal(c: Command): (r: seq<Byte>)
    requires Ok(c)
    ensures |r| == 10 + |Body(c)|
  {
    Be16(Tag(c)) + (Be32(10 + |Body(c)|) + (Be32(Code(c)) + Body(c)))
  }

  lemma TookArea(a: Auth, rest: seq<Byte>)
    requires AuthOk(a)
    ensures TakeAuthArea(AuthArea(a) + rest) == Some((a, rest))
  {
    hide TakeAuthArea, AuthBytes;
    TookAuthArea(a, rest);
    var area := AuthBytes(a);
    assert Be32(|area|) + area + rest == Be32(|area|) + (area + rest);
  }

  lemma TookLoad(c: Command)
    requires Ok(c) && c.Load?
    ensures TakeLoad(Body(c)) == Some((c, []))
  {
    hide Take32, TakeSized, TakeAuthArea, Sized, AuthArea;
    Took32(c.parent, AuthArea(c.auth) + (Sized(c.private) + Sized(c.public)));
    TookArea(c.auth, Sized(c.private) + Sized(c.public));
    TookSized(c.private, Sized(c.public));
    LastSized(c.public);
  }

  lemma TookStartAuthSession(c: Command)
    requires Ok(c) && c.StartAuthSession?
    ensures TakeStartAuthSession(Body(c)) == Some((c, []))
  {
    hide Take8, Take16, Take32, TakeSized, Sized;
    var tail := [c.kind] + (Be16(c.symmetric) + Be16(c.hash));
    Took32(c.tpmKey, Be32(c.bind) + (Sized(c.nonce) + (Sized(c.salt) + tail)));
    Took32(c.bind, Sized(c.nonce) + (Sized(c.salt) + tail));
    TookSized(c.nonce, Sized(c.salt) + tail);
    TookSized(c.salt, tail);
    Took8(c.kind, Be16(c.symmetric) + Be16(c.hash));
    Took16(c.symmetric, Be16(c.hash));
    Took16(c.hash, []);
    assert Be16(c.hash) + [] == Be16(c.hash);
  }

  lemma TookPolicyPcr(c: Command)
    requires Ok(c) && c.PolicyPcr?
    ensures TakePolicyPcr(Body(c)) == Some((c, []))
  {
    hide Take, Take8, Take16, Take32, TakeSized, Sized;
    var tail := [|c.select|] + c.select;
    Took32(c.session, Sized(c.digest) + (Be32(1) + (Be16(c.hash) + tail)));
    TookSized(c.digest, Be32(1) + (Be16(c.hash) + tail));
    Took32(1, Be16(c.hash) + tail);
    Took16(c.hash, tail);
    Took8(|c.select|, c.select);
    Took(c.select, []);
    assert c.select + [] == c.select;
  }

  lemma TookUnseal(c: Command)
    requires Ok(c) && c.Unseal?
    ensures TakeUnseal(Body(c)) == Some((c, []))
  {
    hide Take32, TakeAuthArea, AuthArea;
    Took32(c.item, AuthArea(c.auth));
    TookArea(c.auth, []);
    assert AuthArea(c.auth) + [] == AuthArea(c.auth);
  }

  lemma TookPcrExtend(c: Command)
    requires Ok(c) && c.PcrExtend?
    ensures TakePcrExtend(Body(c)) == Some((c, []))
  {
    hide Take, Take16, Take32, TakeAuthArea, AuthArea;
    Took32(c.pcr, AuthArea(c.auth) + (Be32(1) + (Be16(c.hash) + c.digest)));
    TookArea(c.auth, Be32(1) + (Be16(c.hash) + c.digest));
    Took32(1, Be16(c.hash) + c.digest);
    Took16(c.hash, c.digest);
    Took(c.digest, []);
    assert c.digest + [] == c.digest;
  }

  /** The decoder inverts the layout of each command's body. */
  lemma BodyReadsBack(c: Command)
    requires Ok(c)
    ensures DecodeBody(Tag(c), Code(c), Body(c)) == Some((c, []))
  {
    hide TakeLoad, TakeStartAuthSession, TakePolicyPcr, TakeUnseal, TakePcrExtend;
    match c
    case Load(_, _, _, _) => TookLoad(c);
    case StartAuthSession(_, _, _, _, _, _, _) => TookStartAuthSession(c);
    case PolicyPcr(_, _, _, _) => TookPolicyPcr(c);
    case Unseal(_, _) => TookUnseal(c);
    case FlushContext(handle) =>
      Took32(handle, []);
      assert Be32(handle) + [] == Be32(handle);
    case PcrExtend(_, _, _, _) => TookPcrExtend(c);
  }

  lemma LastSized(x: seq<Byte>)
    requires |x| < 0x1_0000
    ensures TakeSized(Sized(x)) == Some((x, []))
  {
    TookSized(x, []);
    assert Sized(x) + [] == Sized(x);
  }

  /** Every command reads back as itself, its size field counting all of its bytes. */
  lemma CommandReadsBack(c: Command)
    requires Ok(c)
    ensures Decode(Marshal(c)) == Some(c)
  {
    hide Take16, Take32, DecodeBody, Body;
    var body := Body(c);
    Took16(Tag(c), Be32(10 + |body|) + (Be32(Code(c)) + body));
    Took32(10 + |body|, Be32(Code(c)) + body);
    Took32(Code(c), body);
    BodyReadsBack(c);
  }

  /** The word at a position. */
  function WordAt(s: seq<Byte>, i: nat): int
    requires i + 4 <= |s|
  {
    Word32(s[i], s[i + 1], s[i + 2], s[i + 3])
  }

  predicate Starts(cmd: seq<Byte>, tag: int, cc: int, first: U32) {
    |cmd| >= 14 && Word16(cmd[0], cmd[1]) == tag && WordAt(cmd, 6) == cc && WordAt(cmd, 10) == first
  }

  lemma TakesWord(s: seq<Byte>, cmd: seq<Byte>, i: nat)
    requires i <= |cmd| && s == cmd[i..] && Take32(s).Some?
    ensures i + 4 <= |cmd| && Take32(s).value.0 == WordAt(cmd, i) && Take32(s).value.1 == cmd[i + 4..]
  {
    Read32Bytes(s, 0);
  }

  /** What the decoder accepts, byte by byte: the size is the length, and tag, code and first handle stand in front. */
  lemma DecodedBytes(cmd: seq<Byte>)
    requires Decode(cmd).Some?
    ensures |cmd| >= 14 && WordAt(cmd, 2) == |cmd|
    ensures match Decode(cmd).value
            case Load(parent, _, _, _) => Starts(cmd, 0x8002, 0x0157, parent)
            case StartAuthSession(tpmKey, _, _, _, _, _, _) => Starts(cmd, 0x8001, 0x0176, tpmKey)
            case PolicyPcr(session, _, _, _) => Starts(cmd, 0x8001, 0x017F, session)
            case Unseal(item, _) => Starts(cmd, 0x8002, 0x015E, item)
            case FlushContext(handle) => Starts(cmd, 0x8001, 0x0165, handle)
            case PcrExtend(pcr, _, _, _) => Starts(cmd, 0x8002, 0x0182, pcr)
  {
    Read16Bytes(cmd, 0);
    TakesWord(cmd[2..], cmd, 2);
    TakesWord(cmd[6..], cmd, 6);
    var tag, size, cc := Read16(cmd, 0), WordAt(cmd, 2), WordAt(cmd, 6);
    BodyStarts(tag, cc, cmd);
    hide DecodeBody, Read16, Take32, WordAt;
  }

  lemma BodyStarts(tag: U16, cc: U32, cmd: seq<Byte>)
    requires |cmd| >= 10 && DecodeBody(tag, cc, cmd[10..]).Some?
    ensures |cmd| >= 14
    ensures match DecodeBody(tag, cc, cmd[10..]).value.0
            case Load(parent, _, _, _) => tag == 0x8002 && cc == 0x0157 && parent == WordAt(cmd, 10)
            case StartAuthSession(tpmKey, _, _, _, _, _, _) =>
              tag == 0x8001 && cc == 0x0176 && tpmKey == WordAt(cmd, 10)
            case PolicyPcr(session, _, _, _) => tag == 0x8001 && cc == 0x017F && session == WordAt(cmd, 10)
            case Unseal(item, _) => tag == 0x8002 && cc == 0x015E && item == WordAt(cmd, 10)
            case FlushContext(handle) => tag == 0x8001 && cc == 0x0165 && handle == WordAt(cmd, 10)
            case PcrExtend(pcr, _, _, _) => tag == 0x8002 && cc == 0x0182 && pcr == WordAt(cmd, 10)
  {
    hide WordAt, Take, Take8, Take16, TakeSized, TakeAuthArea, Read32;
    if Take32(cmd[10..]).Some? { TakesWord(cmd[10..], cmd, 10); }
  }

  // ------------------------------------------------------------------- builders

  // Appending piece by piece, as the builders do, against the nesting of the layouts.

  lemma Nest3(a: seq<Byte>, b: seq<Byte>, c: seq<Byte>)
    ensures a + b + c == a + (b + c)
  {
  }

  lemma Nest4(a: seq<Byte>, b: seq<Byte>, c: seq<Byte>, d: seq<Byte>)
    ensures a + b + c + d == a + (b + (c + d))
  {
    Nest3(a + b, c, d);
    Nest3(a, b, c + d);
  }

  lemma Nest5(a: seq<Byte>, b: seq<Byte>, c: seq<Byte>, d: seq<Byte>, e: seq<Byte>)
    ensures a + b + c + d + e == a + (b + (c + (d + e)))
  {
    Nest3(a + b + c, d, e);
    Nest4(a, b, c, d + e);
  }

  lemma Nest8(a: seq<Byte>, b: seq<Byte>, c: seq<Byte>, d: seq<Byte>, e: seq<Byte>, f: seq<Byte>, g: seq<Byte>,
      h: seq<Byte>)
    ensures a + b + c + d + e + f + g + h == a + (b + (c + (d + (e + (f + (g + h))))))
  {
    Nest5(a + b + c + d, e, f, g, h);
    Nest5(a, b, c, d, e + (f + (g + h)));
  }

  lemma EmptySized()
    ensures Sized([]) == Be16(0)
  {
    assert Be16(0) + [] == Be16(0);
  }

  function EmptyAuth(session: U32): Auth { Auth(session, [], 0, []) }

  /** `build_pw_auth_area` (session RS_PW) and `build_policy_auth_area`. */
  method BuildAuthArea(session: U32) returns (v: seq<Byte>)
    ensures |v| == 9 && TakeAuth(v) == Some((Auth(session, [], 0, []), []))
    ensures v == AuthBytes(EmptyAuth(session))
  {
    hide TakeAuth, Sized;
    v := Be32(session);
    v := v + Be16(0);
    v := v + [0];
    v := v + Be16(0);
    EmptySized();
    Nest4(Be32(session), Be16(0), [0], Be16(0));
    TookAuth(EmptyAuth(session));
  }

  /** Tag, size and command code, as every builder starts. */
  function Header(tag: U16, size: U32, cc: U32): seq<Byte> { Be16(tag) + Be32(size) + Be32(cc) }

  /** A header with the right size before a body is the whole command. */
  lemma HeaderAndBody(c: Command, size: U32, cmd: seq<Byte>)
    requires Ok(c) && size == 10 + |Body(c)| && cmd == Header(Tag(c), size, Code(c)) + Body(c)
    ensures Decode(cmd) == Some(c) && |cmd| == size && cmd[2..6] == Be32(size)
  {
    hide Body, Decode;
    var body := Body(c);
    Nest4(Be16(Tag(c)), Be32(size), Be32(Code(c)), body);
    CommandReadsBack(c);
  }

  /** `tpm2_load`: sizes are cut to their fields, so the command means what was asked exactly when they fit. */
  method BuildLoad(parent: U32, public: seq<Byte>, private: seq<Byte>) returns (cmd: seq<Byte>)
    ensures Decode(cmd) == Some(Load(parent, EmptyAuth(0x4000_0009), private, public)) <==>
        |private| < 0x1_0000 && |public| < 0x1_0000
  {
    hide Decode, Body, AuthBytes;
    var auth := BuildAuthArea(RS_PW);
    var privateSize := |private| % 0x1_0000;
    var publicSize := |public| % 0x1_0000;
    var total := 10 + (4 + 4 + |auth| + 2 + |private| + 2 + |public|);
    cmd := Be16(ST_SESSIONS);
    cmd := cmd + Be32(total % 0x1_0000_0000);
    cmd := cmd + Be32(CC_LOAD);
    ghost var header := cmd;
    cmd := cmd + Be32(parent);
    cmd := cmd + Be32(|auth|);
    cmd := cmd + auth;
    cmd := cmd + Be16(privateSize);
    cmd := cmd + private;
    cmd := cmd + Be16(publicSize);
    cmd := cmd + public;
    LoadMeans(Load(parent, EmptyAuth(RS_PW), private, public), auth, privateSize, publicSize, total, header, cmd);
  }

  lemma LoadMeans(c: Command, auth: seq<Byte>, privateSize: U16, publicSize: U16, total: nat, header: seq<Byte>,
      cmd: seq<Byte>)
    requires c.Load? && AuthOk(c.auth) && auth == AuthBytes(c.auth) && |auth| == 9
    requires privateSize == |c.private| % 0x1_0000 && publicSize == |c.public| % 0x1_0000
    requires total == 10 + (4 + 4 + |auth| + 2 + |c.private| + 2 + |c.public|)
    requires header == Be16(ST_SESSIONS) + Be32(total % 0x1_0000_0000) + Be32(CC_LOAD)
    requires cmd == header + Be32(c.parent) + Be32(|auth|) + auth + Be16(privateSize) + c.private + Be16(publicSize)
        + c.public
    ensures Decode(cmd) == Some(c) <==> |c.private| < 0x1_0000 && |c.public| < 0x1_0000
  {
    hide *;
    if |c.private| < 0x1_0000 && |c.public| < 0x1_0000 {
      LoadHeader(c, total);
      LoadBody(c, header, auth, cmd);
      HeaderAndBody(c, total, cmd);
    } else if Decode(cmd) == Some(c) {
      DecodedLoadFits(cmd);
    }
  }

  lemma LoadHeader(c: Command, size: U32)
    requires c.Load? && AuthOk(c.auth) && |c.private| < 0x1_0000 && |c.public| < 0x1_0000
    ensures Ok(c) && Header(Tag(c), size, Code(c)) == Be16(ST_SESSIONS) + Be32(size) + Be32(CC_LOAD)
  {
  }

  lemma LoadBody(c: Command, header: seq<Byte>, auth: seq<Byte>, cmd: seq<Byte>)
    requires Ok(c) && c.Load? && auth == AuthBytes(c.auth) && |auth| == 9
    requires cmd == header + Be32(c.parent) + Be32(|auth|) + auth + Be16(|c.private|) + c.private + Be16(|c.public|)
        + c.public
    ensures cmd == header + Body(c) && |Body(c)| == 4 + 4 + |auth| + 2 + |c.private| + 2 + |c.public|
  {
    hide AuthBytes;
    var size, tail := Be32(|auth|), Be16(|c.public|) + c.public;
    Nest8(header, Be32(c.parent), size, auth, Be16(|c.private|), c.private, Be16(|c.public|), c.public);
    Nest3(Be16(|c.private|), c.private, tail);
    Nest3(size, auth, Sized(c.private) + tail);
  }

  lemma DecodedLoadFits(cmd: seq<Byte>)
    requires Decode(cmd).Some? && Decode(cmd).value.Load?
    ensures |Decode(cmd).value.private| < 0x1_0000 && |Decode(cmd).value.public| < 0x1_0000
  {
    hide Take16, Take32, TakeSized, TakeAuthArea;
  }

  /** `tpm2_start_auth_session`: an unsalted, unbound policy session over SHA-256. */
  method BuildStartAuthSession() returns (cmd: seq<Byte>)
    ensures Decode(cmd) == Some(StartAuthSession(0x4000_0007, 0x4000_0007, [], [], 0x01, 0x0010, 0x000B))
  {
    hide Decode, Sized;
    var total := 10 + (4 + 4 + 2 + 2 + 1 + 2 + 2);
    cmd := Be16(ST_NO_SESSIONS);
    cmd := cmd + Be32(total);
    cmd := cmd + Be32(CC_START_AUTH_SESSION);
    ghost var header := cmd;
    cmd := cmd + Be32(RH_NULL);
    cmd := cmd + Be32(RH_NULL);
    cmd := cmd + Be16(0);
    cmd := cmd + Be16(0);
    cmd := cmd + [SE_POLICY];
    cmd := cmd + Be16(ALG_NULL);
    cmd := cmd + Be16(ALG_SHA256);
    EmptySized();
    Nest8(header, Be32(RH_NULL), Be32(RH_NULL), Be16(0), Be16(0), [SE_POLICY], Be16(ALG_NULL), Be16(ALG_SHA256));
    HeaderAndBody(StartAuthSession(RH_NULL, RH_NULL, [], [], SE_POLICY, ALG_NULL, ALG_SHA256), total, cmd);
  }

  /** The three select bytes of a mask, PCR 0 in the lowest bit of the first. */
  function Select(mask: U32): (r: seq<Byte>)
    ensures |r| == 3
  {
    [mask % 256, mask / 256 % 256, mask / 0x1_0000 % 256]
  }

  method BuildPcrSelection(mask: U32) returns (v: seq<Byte>)
    ensures v == Be32(1) + (Be16(ALG_SHA256) + ([3] + Select(mask))) && |v| == 10
  {
    v := Be32(1);
    v := v + Be16(ALG_SHA256);
    v := v + [3];
    ghost var front := v;
    v := v + [mask % 256];
    v := v + [mask / 256 % 256];
    v := v + [mask / 0x1_0000 % 256];
    assert v == front + Select(mask);
    Nest4(Be32(1), Be16(ALG_SHA256), [3], Select(mask));
  }

  /** `tpm2_policy_pcr`. */
  method BuildPolicyPcr(session: U32, mask: U32) returns (cmd: seq<Byte>)
    ensures Decode(cmd) == Some(PolicyPcr(session, [], 0x000B, Select(mask)))
  {
    hide Decode, Sized, Select;
    var selection := BuildPcrSelection(mask);
    var total := 10 + (4 + 2 + |selection|);
    cmd := Be16(ST_NO_SESSIONS);
    cmd := cmd + Be32(total);
    cmd := cmd + Be32(CC_POLICY_PCR);
    ghost var header := cmd;
    cmd := cmd + Be32(session);
    cmd := cmd + Be16(0);
    cmd := cmd + selection;
    EmptySized();
    Nest4(header, Be32(session), Be16(0), selection);
    HeaderAndBody(PolicyPcr(session, [], ALG_SHA256, Select(mask)), total, cmd);
  }

  /** `tpm2_unseal`, the command. */
  method BuildUnseal(item: U32, session: U32) returns (cmd: seq<Byte>)
    ensures Decode(cmd) == Some(Unseal(item, EmptyAuth(session)))
  {
    hide Decode, AuthBytes;
    var auth := BuildAuthArea(session);
    var total := 10 + (4 + 4 + |auth|);
    cmd := Be16(ST_SESSIONS);
    cmd := cmd + Be32(total);
    cmd := cmd + Be32(CC_UNSEAL);
    ghost var header := cmd;
    cmd := cmd + Be32(item);
    cmd := cmd + Be32(|auth|);
    cmd := cmd + auth;
    Nest4(header, Be32(item), Be32(|auth|), auth);
    HeaderAndBody(Unseal(item, EmptyAuth(session)), total, cmd);
  }

  /** `tpm2_flush_context`. */
  method BuildFlushContext(handle: U32) returns (cmd: seq<Byte>)
    ensures Decode(cmd) == Some(FlushContext(handle))
  {
    hide Decode;
    cmd := Be16(ST_NO_SESSIONS);
    cmd := cmd + Be32(14);
    cmd := cmd + Be32(CC_FLUSH_CONTEXT);
    cmd := cmd + Be32(handle);
    HeaderAndBody(FlushContext(handle), 14, cmd);
  }

  /** The command of `extend_pcr`. */
  method BuildPcrExtend(pcr: U32, digest: seq<Byte>) returns (cmd: seq<Byte>)
    requires |digest| == 32
    ensures Decode(cmd) == Some(PcrExtend(pcr, EmptyAuth(0x4000_0009), 0x000B, digest))
  {
    hide Decode, AuthBytes;
    var auth := BuildAuthArea(RS_PW);
    var digests := Be32(1);
    digests := digests + Be16(ALG_SHA256);
    digests := digests + digest;
    Nest3(Be32(1), Be16(ALG_SHA256), digest);
    var total := 10 + (4 + 4 + |auth| + |digests|);
    cmd := Be16(ST_SESSIONS);
    cmd := cmd + Be32(total);
    cmd := cmd + Be32(CC_PCR_EXTEND);
    ghost var header := cmd;
    cmd := cmd + Be32(pcr);
    cmd := cmd + Be32(|auth|);
    cmd := cmd + auth;
    cmd := cmd + digests;
    Nest5(header, Be32(pcr), Be32(|auth|), auth, digests);
    Nest3(Be32(|auth|), auth, digests);
    HeaderAndBody(PcrExtend(pcr, EmptyAuth(RS_PW), ALG_SHA256, digest), total, cmd);
  }

  // -------------------------------------------------------------- PCR selection

  /** Bit i of n. */
  function Bit(n: nat, i: nat): bool {
    if i == 0 then n % 2 == 1 else Bit(n / 2, i - 1)
  }

  /** The TPM's reading of a select bitmap. */
  predicate Selected(select: seq<Byte>, i: nat) {
    i < 8 * |select| && Bit(select[i / 8], i % 8)
  }

  ghost function Shift(n: nat, w: nat): nat {
    if w == 0 then n else Shift(n / 2, w - 1)
  }

  ghost function Low(n: nat, w: nat): nat {
    if w == 0 then 0 else n % 2 + 2 * Low(n / 2, w - 1)
  }

  lemma {:induction false} BitLow(n: nat, w: nat, i: nat)
    requires i < w
    ensures Bit(Low(n, w), i) == Bit(n, i)
    decreases i
  {
    if i > 0 { BitLow(n / 2, w - 1, i - 1); }
  }

  lemma {:induction false} BitShift(n: nat, w: nat, i: nat)
    ensures Bit(Shift(n, w), i) == Bit(n, w + i)
    decreases w
  {
    if w > 0 { BitShift(n / 2, w - 1, i); }
  }

  lemma {:induction false} LowAndShift(n: nat, w: nat)
    ensures Low(n, w) < Pow2(w) && n == Low(n, w) + Pow2(w) * Shift(n, w)
    decreases w
  {
    if w > 0 {
      LowAndShift(n / 2, w - 1);
      var p, s := Pow2(w - 1), Shift(n / 2, w - 1);
      assert Pow2(w) == 2 * p && Shift(n, w) == s && Low(n, w) == n % 2 + 2 * Low(n / 2, w - 1);
      hide Pow2, Shift, Low;
      Double(p, s);
    }
  }

  lemma Double(p: nat, s: nat)
    ensures 2 * p * s == 2 * (p * s)
  {
  }

  lemma ByteWide()
    ensures Pow2(8) == 256
  {
    assert Pow2(4) == 2 * Pow2(3) && Pow2(3) == 2 * Pow2(2) && Pow2(2) == 2 * Pow2(1);
    assert Pow2(8) == 2 * Pow2(7) && Pow2(7) == 2 * Pow2(6) && Pow2(6) == 2 * Pow2(5) && Pow2(5) == 2 * Pow2(4);
  }

  lemma LowByte(n: nat)
    ensures n % 256 == Low(n, 8) && n / 256 == Shift(n, 8)
  {
    hide Low, Shift, Pow2;
    LowAndShift(n, 8);
    ByteWide();
  }

  lemma ByteBit(n: nat, j: nat)
    requires j < 8
    ensures Bit(n % 256, j) == Bit(n, j)
  {
    LowByte(n);
    BitLow(n, 8, j);
  }

  lemma HigherBit(n: nat, i: nat)
    ensures Bit(n / 256, i) == Bit(n, 8 + i)
  {
    LowByte(n);
    BitShift(n, 8, i);
  }

  /** Exactly the PCRs below 24 of the mask are selected. */
  lemma SelectionMeans(mask: U32, i: nat)
    ensures Selected(Select(mask), i) <==> i < 24 && Bit(mask, i)
  {
    hide Bit;
    var j := i % 8;
    if i < 8 {
      ByteBit(mask, j);
    } else if i < 16 {
      ByteBit(mask / 256, j);
      HigherBit(mask, j);
    } else if i < 24 {
      assert mask / 0x1_0000 == mask / 256 / 256;
      ByteBit(mask / 256 / 256, j);
      HigherBit(mask / 256, j);
      HigherBit(mask, 8 + j);
    }
  }

  lemma {:induction false} SomeBit(n: nat, bound: nat) returns (i: nat)
    requires 0 < n < bound
    ensures Bit(n, i) && i < bound
    decreases n
  {
    if n % 2 == 1 {
      i := 0;
    } else {
      i := SomeBit(n / 2, bound - 1);
      i := i + 1;
    }
  }

  lemma {:induction false} NoBits(i: nat)
    ensures !Bit(0, i)
  {
    if i > 0 { NoBits(i - 1); }
  }

  lemma HighBits(mask: U32, i: nat)
    ensures Bit(mask / 0x100_0000, i) == Bit(mask, 24 + i)
  {
    hide Bit;
    assert mask / 0x100_0000 == mask / 256 / 256 / 256;
    HigherBit(mask / 256 / 256, i);
    HigherBit(mask / 256, 8 + i);
    HigherBit(mask, 16 + i);
  }

  /** The selection is the given mask exactly when the mask names no PCR from 24 on. */
  lemma SelectionFaithful(mask: U32)
    ensures (forall i: nat :: Selected(Select(mask), i) <==> Bit(mask, i)) <==> mask < 0x100_0000
  {
    hide Bit, Selected, Select;
    forall i: nat ensures Selected(Select(mask), i) <==> i < 24 && Bit(mask, i) { SelectionMeans(mask, i); }
    if mask < 0x100_0000 {
      forall i: nat | 24 <= i ensures !Bit(mask, i) {
        HighBits(mask, i - 24);
        NoBits(i - 24);
      }
    } else {
      var i := SomeBit(mask / 0x100_0000, 256);
      HighBits(mask, i);
      var pcr := 24 + i;
      assert Bit(mask, pcr) && !Selected(Select(mask), pcr);
    }
  }

  // ----------------------------------------------------------------- blob file

  datatype Blob = Parsed(public: seq<Byte>, private: seq<Byte>) | TooShort | PublicTruncated | PrivateTruncated

  /** The documented layout, possibly followed by more bytes. */
  ghost predicate Layout(blob: seq<Byte>, public: seq<Byte>, private: seq<Byte>) {
    |public| < 0x1_0000 && |private| < 0x1_0000 && Sized(public) + Sized(private) <= blob
  }

  /** `parse_blob`: succeeds exactly on the documented layout, with its two areas. */
  method ParseBlob(blob: seq<Byte>) returns (r: Blob)
    ensures r.Parsed? ==> Layout(blob, r.public, r.private)
    ensures forall public, private :: Layout(blob, public, private) ==> r == Parsed(public, private)
    ensures r == TooShort <==> |blob| < 4
    ensures r == PublicTruncated <==> |blob| >= 4 && |blob| < 4 + Read16(blob, 0)
  {
    hide Layout, Read16;
    forall public, private | Layout(blob, public, private) ensures PartsAt(blob, public, private) {
      LayoutParts(blob, public, private);
    }
    if |blob| < 4 { return TooShort; }
    var publicSize: nat := Read16(blob, 0);
    if |blob| < 2 + publicSize + 2 { return PublicTruncated; }
    var public := blob[2..2 + publicSize];
    var offset: nat := 2 + publicSize;
    var privateSize: nat := Read16(blob, offset);
    if |blob| < offset + 2 + privateSize { return PrivateTruncated; }
    var private := blob[offset + 2..offset + 2 + privateSize];
    LayoutFrom(blob, publicSize, privateSize);
    return Parsed(public, private);
  }

  ghost predicate PartsAt(blob: seq<Byte>, public: seq<Byte>, private: seq<Byte>) {
    && |blob| >= 4 + |public| + |private|
    && Read16(blob, 0) == |public| && blob[2..2 + |public|] == public
    && Read16(blob, 2 + |public|) == |private| && blob[4 + |public|..4 + |public| + |private|] == private
  }

  lemma LayoutParts(blob: seq<Byte>, public: seq<Byte>, private: seq<Byte>)
    requires Layout(blob, public, private)
    ensures PartsAt(blob, public, private)
  {
    var a, b := Sized(public), Sized(private);
    var p, q := |a|, |a| + |b|;
    assert blob[..q] == a + b;
    assert blob[..p] == a by { assert (a + b)[..p] == a && blob[..q][..p] == blob[..p]; }
    assert blob[p..q] == b by { assert (a + b)[p..] == b && blob[..q][p..] == blob[p..q]; }
    SizedParts(blob, 0, public);
    SizedParts(blob, p, private);
  }

  lemma SizedParts(s: seq<Byte>, i: nat, x: seq<Byte>)
    requires |x| < 0x1_0000 && i + 2 + |x| <= |s| && s[i..i + 2 + |x|] == Sized(x)
    ensures Read16(s, i) == |x| && s[i + 2..i + 2 + |x|] == x
  {
    var part := s[i..i + 2 + |x|];
    assert s[i..i + 2] == part[..2] == Be16(|x|);
    assert s[i + 2..i + 2 + |x|] == part[2..] == x;
  }

  lemma LayoutFrom(blob: seq<Byte>, p: U16, q: U16)
    requires |blob| >= 4 + p + q && Read16(blob, 0) == p && Read16(blob, 2 + p) == q
    ensures Layout(blob, blob[2..2 + p], blob[4 + p..4 + p + q])
  {
    Took16Back(blob, 0);
    Took16Back(blob, 2 + p);
    assert Sized(blob[2..2 + p]) == blob[..2 + p];
    assert Sized(blob[4 + p..4 + p + q]) == blob[2 + p..4 + p + q];
    assert blob[..4 + p + q] == blob[..2 + p] + blob[2 + p..4 + p + q];
  }

  lemma Took16Back(s: seq<Byte>, i: nat)
    requires i + 2 <= |s|
    ensures Be16(Read16(s, i)) == s[i..i + 2]
  {
    WriteBack(s[i..i + 2]);
  }

  // -------------------------------------------------------------------- replies

  /** What reading the device gives: nothing when the write or the read fails. */
  type Reply = Option<seq<Byte>>

  /** `tpm2_send`: at least a header, and a zero response code. */
  function Accepted(reply: Reply): (r: Option<seq<Byte>>)
    ensures r.Some? ==> r == reply && |r.value| >= 10 && Read32(r.value, 6) == RC_SUCCESS
  {
    if reply.Some? && |reply.value| >= 10 && Read32(reply.value, 6) == RC_SUCCESS then reply else None
  }

  /** The handle after the response header, of a response of at least `min` bytes. */
  function HandleIn(reply: Reply, min: nat): Option<U32>
    requires min >= 14
  {
    var resp :- Accepted(reply);
    if |resp| < min then None else Some(Read32(resp, 10))
  }

  /** What a reply is read as, byte by byte: ten bytes with a zero code at 6 to 9, and the handle at 10 to 13. */
  lemma ReplyMeans(reply: Reply, min: nat)
    requires min >= 14
    ensures Accepted(reply).Some? <==> reply.Some? && |reply.value| >= 10 && reply.value[6..10] == [0, 0, 0, 0]
    ensures HandleIn(reply, min).Some? <==> Accepted(reply).Some? && |reply.value| >= min
    ensures HandleIn(reply, min).Some? ==>
              var b := reply.value; HandleIn(reply, min) == Some(Word32(b[10], b[11], b[12], b[13]))
  {
    hide Read32, Word32;
    if reply.Some? && |reply.value| >= 10 {
      CodeIsZero(reply.value);
      if |reply.value| >= 14 { Read32Bytes(reply.value, 10); }
    }
  }

  lemma CodeIsZero(b: seq<Byte>)
    requires |b| >= 10
    ensures Read32(b, 6) == RC_SUCCESS <==> b[6..10] == [0, 0, 0, 0]
  {
    hide Read32;
    Read32Bytes(b, 6);
    WordIsZero(b[6], b[7], b[8], b[9]);
    hide Word32;
    assert b[6..10] == [b[6], b[7], b[8], b[9]];
  }

  lemma WordIsZero(a: Byte, b: Byte, c: Byte, d: Byte)
    ensures Word32(a, b, c, d) == 0 <==> a == 0 && b == 0 && c == 0 && d == 0
  {
  }

  /** The response of TPM2_Unseal after its parameter size: a TPM2B, possibly followed by the session area. */
  ghost predicate Seals(resp: seq<Byte>, data: seq<Byte>) {
    |resp| >= 14 && |data| < 0x1_0000 && Sized(data) <= resp[14..]
  }

  /** The response parse of `tpm2_unseal`: in bounds on every response, and exactly the sealed bytes. */
  method ReadSealed(resp: seq<Byte>) returns (r: Option<seq<Byte>>)
    ensures r.Some? ==> Seals(resp, r.value)
    ensures forall data :: Seals(resp, data) ==> r == Some(data)
  {
    hide Seals, Read16;
    forall data | Seals(resp, data)
      ensures |resp| >= 16 + |data| && Read16(resp, 14) == |data| && resp[16..16 + |data|] == data
    {
      SealedParts(resp, data);
    }
    if |resp| < 16 { return None; }
    var size: nat := Read16(resp, 14);
    if |resp| < 16 + size { return None; }
    SealedFrom(resp, size);
    return Some(resp[16..16 + size]);
  }

  lemma SealedParts(resp: seq<Byte>, data: seq<Byte>)
    requires Seals(resp, data)
    ensures |resp| >= 16 + |data| && Read16(resp, 14) == |data| && resp[16..16 + |data|] == data
  {
    assert resp[14..][..2 + |data|] == resp[14..16 + |data|];
    SizedParts(resp, 14, data);
  }

  lemma SealedFrom(resp: seq<Byte>, size: nat)
    requires |resp| >= 16 + size && Read16(resp, 14) == size
    ensures Seals(resp, resp[16..16 + size])
  {
    Took16Back(resp, 14);
    var tail := resp[14..];
    assert tail[..2] == resp[14..16] && tail[2..2 + size] == resp[16..16 + size];
    assert tail[..2 + size] == tail[..2] + tail[2..2 + size];
  }

  // ------------------------------------------------------------- the whole unseal

  /** The files and the device, as far as `unseal_luks_key` sees them. */
  datatype Machine = Machine(blob: Option<seq<Byte>>, parent: Option<seq<Byte>>, opens: bool, mask: U32)

  /** Everything before the first command succeeds. */
  ghost predicate Ready(m: Machine, public: seq<Byte>, private: seq<Byte>) {
    && m.blob.Some? && |m.blob.value| >= 8 && m.parent.Some? && |m.parent.value| >= 4 && m.opens
    && Layout(m.blob.value, public, private)
  }

  /** The commands of a complete run. */
  ghost function Plan(m: Machine, public: seq<Byte>, private: seq<Byte>, item: U32, session: U32): seq<Command>
    requires Ready(m, public, private)
  {
    [Load(Read32(m.parent.value, 0), EmptyAuth(RS_PW), private, public),
     StartAuthSession(RH_NULL, RH_NULL, [], [], SE_POLICY, ALG_NULL, ALG_SHA256),
     PolicyPcr(session, [], ALG_SHA256, Select(m.mask)),
     Unseal(item, EmptyAuth(session)),
     FlushContext(session),
     FlushContext(item)]
  }

  /** How many commands the replies let through. */
  ghost function Progress(replies: seq<Reply>): nat
    requires |replies| == 6
  {
    if HandleIn(replies[0], 18).None? then 1
    else if HandleIn(replies[1], 14).None? then 2
    else if Accepted(replies[2]).None? then 3
    else if Accepted(replies[3]).None? || !(exists data :: Seals(replies[3].value, data)) then 4
    else 6
  }

  /** The commands sent are the first `Progress` of the plan. */
  ghost predicate Sent(m: Machine, replies: seq<Reply>, sent: seq<seq<Byte>>, public: seq<Byte>, private: seq<Byte>)
    requires |replies| == 6
  {
    && Ready(m, public, private)
    && |sent| == Progress(replies)
    && var item := HandleIn(replies[0], 18);
       var session := HandleIn(replies[1], 14);
       var handle := if item.Some? then item.value else 0;
       var plan := Plan(m, public, private, handle, if session.Some? then session.value else 0);
       forall k :: 0 <= k < |sent| ==> Decode(sent[k]) == Some(plan[k])
  }

  method ReadParentHandle(file: Option<seq<Byte>>) returns (r: Option<U32>)
    ensures r == if file.Some? && |file.value| >= 4 then Some(Read32(file.value, 0)) else None
  {
    if file.None? { return None; }
    if |file.value| < 4 { return None; }
    return Some(Read32(file.value, 0));
  }

  /**
   `unseal_luks_key`: the key is exactly the sealed data, and it is returned exactly when the
   files are in order and the TPM accepts all four commands; the commands sent decode to the plan.
   */
  method UnsealLuksKey(m: Machine, replies: seq<Reply>)
    returns (key: Option<seq<Byte>>, sent: seq<seq<Byte>>, ghost public: seq<Byte>, ghost private: seq<Byte>)
    requires |replies| == 6
    ensures Sent(m, replies, sent, public, private)
            || (sent == [] && key == None && !exists p, q :: Ready(m, p, q))
    ensures key.Some? ==> |sent| == 6 && Seals(replies[3].value, key.value)
    ensures |sent| == 6 ==> key.Some?
  {
    hide Decode, Layout, Seals, Select;
    public, private, sent, key := [], [], [], None;
    if m.blob.None? { return; }
    if |m.blob.value| < 8 { return; }
    var parent := ReadParentHandle(m.parent);
    if parent.None? { return; }
    if !m.opens { return; }
    var blob := ParseBlob(m.blob.value);
    if !blob.Parsed? { return; }
    public, private := blob.public, blob.private;
    LayoutFits(m.blob.value, public, private);

    var load := BuildLoad(parent.value, blob.public, blob.private);
    sent := sent + [load];
    var item := HandleIn(replies[0], 18);
    if item.None? { return; }

    var start := BuildStartAuthSession();
    sent := sent + [start];
    var session := HandleIn(replies[1], 14);
    if session.None? { return; }

    var policy := BuildPolicyPcr(session.value, m.mask);
    sent := sent + [policy];
    if Accepted(replies[2]).None? { return; }

    var unseal := BuildUnseal(item.value, session.value);
    sent := sent + [unseal];
    var resp := Accepted(replies[3]);
    if resp.None? { return; }
    key := ReadSealed(resp.value);
    if key.None? { return; }

    var flushSession := BuildFlushContext(session.value);
    var flushItem := BuildFlushContext(item.value);
    sent := sent + [flushSession, flushItem];
  }

  lemma LayoutFits(blob: seq<Byte>, public: seq<Byte>, private: seq<Byte>)
    requires Layout(blob, public, private)
    ensures |public| < 0x1_0000 && |private| < 0x1_0000
  {
  }

  /** A handle the TPM gave out in the run. */
  ghost predicate GivenOut(replies: seq<Reply>, h: U32)
    requires |replies| == 6
  {
    || HandleIn(replies[0], 18) == Some(h)
    || (HandleIn(replies[0], 18).Some? && HandleIn(replies[1], 14) == Some(h))
  }

  ghost predicate Flushed(sent: seq<seq<Byte>>, h: U32) {
    exists k :: 0 <= k < |sent| && Decode(sent[k]) == Some(FlushContext(h))
  }

  /**
   Flush commands are sent only at the end of a successful run: every handle given out gets one exactly
   when no handle was given out at all or the key was unsealed.  After a refused policy session, PCR
   policy or unseal the loaded object is left to the device: a resource manager drops it when the
   device is closed, the TPM itself does not.
   */
  lemma FlushedExactlyWhen(m: Machine, replies: seq<Reply>, sent: seq<seq<Byte>>, public: seq<Byte>, private: seq<Byte>)
    requires |replies| == 6 && Sent(m, replies, sent, public, private)
    ensures (forall h :: GivenOut(replies, h) ==> Flushed(sent, h))
            <==> HandleIn(replies[0], 18).None? || Progress(replies) == 6
  {
    hide Decode, Seals, Select;
    var item, session := HandleIn(replies[0], 18), HandleIn(replies[1], 14);
    if Progress(replies) == 6 {
      assert Decode(sent[4]) == Some(FlushContext(session.value));
      assert Decode(sent[5]) == Some(FlushContext(item.value));
    } else if item.Some? {
      assert GivenOut(replies, item.value);
      assert forall k :: 0 <= k < |sent| ==> Decode(sent[k]) != Some(FlushContext(item.value));
    }
  }

  const LEAKING := Machine(Some(Sized([1, 2]) + Sized([3, 4])), Some(Be32(0x8100_0001)), true, 0x183)

  lemma LeakingIsReady()
    ensures Ready(LEAKING, [1, 2], [3, 4])
  {
    hide Be16, Be32;
  }

  /** The answer to the load, and then nothing. */
  function LeakingReplies(h: U32): (r: seq<Reply>)
    ensures |r| == 6
  {
    [Some(Zeros(10) + (Be32(h) + Zeros(4))), None, None, None, None, None]
  }

  lemma LeakingProgress(h: U32)
    ensures HandleIn(LeakingReplies(h)[0], 18) == Some(h) && HandleIn(LeakingReplies(h)[1], 14) == None
    ensures Progress(LeakingReplies(h)) == 2
  {
    hide Read32, Be32, Seals;
    AnswerReads(h);
  }

  /** A run without a flush: the load is answered with a handle, and the session is refused. */
  lemma LoadedObjectLeaks(h: U32) returns (sent: seq<seq<Byte>>)
    ensures Sent(LEAKING, LeakingReplies(h), sent, [1, 2], [3, 4])
    ensures GivenOut(LeakingReplies(h), h) && !Flushed(sent, h)
  {
    hide Decode, Marshal, Seals, Layout, Read32, Sized, Select, HandleIn, Progress, Body, LeakingReplies;
    LeakingIsReady();
    LeakingProgress(h);
    var plan := Plan(LEAKING, [1, 2], [3, 4], h, 0);
    CommandReadsBack(plan[0]);
    CommandReadsBack(plan[1]);
    sent := [Marshal(plan[0]), Marshal(plan[1])];
    assert Decode(sent[0]) == Some(plan[0]) && Decode(sent[1]) == Some(plan[1]);
    FlushedExactlyWhen(LEAKING, LeakingReplies(h), sent, [1, 2], [3, 4]);
    OnlyThatHandle(h, sent);
  }

  lemma OnlyThatHandle(h: U32, sent: seq<seq<Byte>>)
    requires !(forall g :: GivenOut(LeakingReplies(h), g) ==> Flushed(sent, g))
    ensures GivenOut(LeakingReplies(h), h) && !Flushed(sent, h)
  {
    hide Flushed;
    LeakingProgress(h);
    hide HandleIn, LeakingReplies;
  }

  lemma AnswerReads(h: U32)
    ensures var answer := Zeros(10) + (Be32(h) + Zeros(4));
            |answer| == 18 && Read32(answer, 6) == RC_SUCCESS && Read32(answer, 10) == h
  {
    var answer := Zeros(10) + (Be32(h) + Zeros(4));
    assert answer[10..14] == Be32(h);
    assert answer[6..10] == [0, 0, 0, 0];
    ZeroWord();
  }

  lemma ZeroWord()
    ensures FromBigEndian([0, 0, 0, 0]) == 0
  {
    assert [0, 0, 0, 0][..3] == [0, 0, 0] && [0, 0, 0][..2] == [0, 0] && [0, 0][..1] == [0] && [0][..0] == [];
    assert FromBigEndian([0, 0]) == 0;
  }
}
