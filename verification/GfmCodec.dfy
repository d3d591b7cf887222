/**
 The Cognitive State Object and its .gfm codec: the wire header, content identity, encoding, and the parser
 that frames, authenticates and only then interprets a buffer.

 The JSON codec, the signature scheme and the semantic header check (which reads the clock) are parameters.
 JSON values that are only carried through are strings; a float32 is its four bytes.
 */
module GfmCodec {
  import opened Wrappers
  import opened Sorting
  import opened Framing

  const SIG_ALG := "ed25519"
  const GFM_VERSION := "1.2"
  const PROVENANCE := "provenance"

  datatype CSO = CSO(m: Option<Matrix>, modelId: string, capabilities: set<string>, consent: string, alpha: string,
                     layout: string, meta: map<string, string>, keyId: Option<string>, payloadType: string,
                     blob: Option<Bytes>)

  ghost predicate ValidCSO(c: CSO) {
    c.m.Some? ==> ValidMatrix(c.m.value)
  }

  /** A decoded JSON header: a field that is missing (or null, for the key id) is None. */
  datatype Header = Header(gfmVersion: Option<string>, sigAlg: Option<string>, modelId: Option<string>, d: Option<int>,
                           dtype: Option<string>, alpha: Option<string>, layout: Option<string>,
                           capabilities: Option<seq<string>>, consent: Option<string>,
                           meta: Option<map<string, string>>, keyId: Option<string>, payloadType: Option<string>)

  /** The parts of the codec that are not its own: JSON, Ed25519 and the typed-header check. */
  datatype Env = Env(encode: Header -> Bytes, decode: Bytes -> Option<Header>,
                     sign: (string, Bytes) -> Bytes, check: (string, Bytes, Bytes) -> bool,
                     headerValid: Header -> bool)

  ghost predicate Ideal(env: Env) {
    && (forall h :: env.decode(env.encode(h)) == Some(h))
    && (forall k, m :: |env.sign(k, m)| == 64 && env.check(k, env.sign(k, m), m))
  }

  function Dim(c: CSO): nat { if c.m.Some? then c.m.value.rows else 0 }

  function OrEmpty(blob: Option<Bytes>): Bytes { if blob.Some? then blob.value else [] }

  function Payload(c: CSO): Bytes {
    if c.payloadType == "tensor" && c.m.Some? then WordBytes(Flatten(c.m.value.cells)) else OrEmpty(c.blob)
  }

  ghost function HeaderOf(c: CSO): Header {
    Header(Some(GFM_VERSION), Some(SIG_ALG), Some(c.modelId), Some(Dim(c)), Some("float32"), Some(c.alpha), Some(c.layout),
           Some(SortedElements(c.capabilities)), Some(c.consent), Some(c.meta), c.keyId, Some(c.payloadType))
  }

  datatype GfmError =
    | BadFrame(error: FrameError) | TooLong | MalformedHeader | UnsupportedSigAlg | UnknownKey | SignatureMismatch
    | InvalidHeader | TensorLength | BadShape | MissingField

  ghost function ToGfm(c: CSO, privateKey: string, env: Env): Result<Bytes, GfmError> {
    var hdr, payload := env.encode(HeaderOf(c)), Payload(c);
    var parts := Parts(hdr, payload, env.sign(privateKey, hdr + payload));
    if Framable(parts) then Success(Frame(parts)) else Failure(TooLong)
  }

  // ----- Parsing -----

  function Default<T>(v: Option<T>, d: T): T { if v.Some? then v.value else d }

  /** What is done with the parts once they are authenticated. */
  function Interpret(h: Header, payload: Bytes, env: Env): Result<CSO, GfmError> {
    if !env.headerValid(h) then Failure(InvalidHeader)
    else
      var payloadType := Default(h.payloadType, "tensor");
      var d := Default(h.d, 0);
      if payloadType == "tensor" && |payload| != d * d * 4 then Failure(TensorLength)
      else if payloadType == "tensor" && h.d == None then Failure(MissingField)
      else if payloadType == "tensor" && d < 0 then Failure(BadShape)
      else if h.modelId == None || h.capabilities == None then Failure(MissingField)
      else
        Success(CSO(if payloadType == "tensor" then Some(Reshape(ToWords(payload), d)) else None,
                    h.modelId.value, (set x | x in h.capabilities.value), Default(h.consent, "default"),
                    Default(h.alpha, "0.0"), Default(h.layout, "row-major"), Default(h.meta, map[]), h.keyId,
                    payloadType, if payloadType == "tensor" then None else Some(payload)))
  }

  /** The key that authenticates the parts, or why there is none. */
  function Authenticate(h: Header, p: Parts, trusted: map<string, string>, env: Env): Result<string, GfmError> {
    if Default(h.sigAlg, SIG_ALG) != SIG_ALG then Failure(UnsupportedSigAlg)
    else if h.keyId == None || h.keyId.value !in trusted then Failure(UnknownKey)
    else
      var pub := trusted[h.keyId.value];
      if env.check(pub, p.signature, p.header + p.payload) then Success(pub) else Failure(SignatureMismatch)
  }

  function Parse(b: Bytes, trusted: map<string, string>, env: Env): Result<CSO, GfmError> {
    match Unframe(b)
    case Failure(e) => Failure(BadFrame(e))
    case Success(p) =>
      match env.decode(p.header)
      case None => Failure(MalformedHeader)
      case Some(h) =>
        match Authenticate(h, p, trusted, env)
        case Failure(e) => Failure(e)
        case Success(_) => Interpret(h, p.payload, env)
  }

  /** The parser proper: one cursor moving through the buffer, with an early exit at every step. */
  method FromGfm(b: Bytes, trusted: map<string, string>, env: Env) returns (r: Result<CSO, GfmError>)
    ensures r == Parse(b, trusted, env)
  {
    if |b| < 4 || b[..4] != MAGIC {
      return Failure(BadFrame(BadMagic));
    }
    var o: nat := 4;
    if |b| < o + 4 {
      return Failure(BadFrame(TruncatedHeaderLength));
    }
    var hl := UnpackU32(b[o..o + 4]);
    o := o + 4;
    if |b| < o + hl {
      return Failure(BadFrame(TruncatedHeader));
    }
    var hdr := b[o..o + hl];
    o := o + hl;
    if |b| < o + 4 {
      return Failure(BadFrame(TruncatedPayloadLength));
    }
    var tl := UnpackU32(b[o..o + 4]);
    o := o + 4;
    if |b| < o + tl {
      return Failure(BadFrame(TruncatedPayload));
    }
    var tensor := b[o..o + tl];
    o := o + tl;
    var sig := b[o..];
    if |sig| != 64 {
      return Failure(BadFrame(SignatureLength(|sig|)));
    }
    var h := env.decode(hdr);
    if h == None {
      return Failure(MalformedHeader);
    }
    var auth := Authenticate(h.value, Parts(hdr, tensor, sig), trusted, env);
    if auth.Failure? {
      return Failure(auth.error);
    }
    return Interpret(h.value, tensor, env);
  }

  /** Nothing is interpreted before it is authenticated: every later verdict, good or bad, is about signed bytes. */
  lemma AuthenticatedFirst(b: Bytes, trusted: map<string, string>, env: Env)
    requires var r := Parse(b, trusted, env);
      r.Success? || r.error in {InvalidHeader, TensorLength, BadShape, MissingField}
    ensures exists p, id :: Framable(p) && b == Frame(p) && id in trusted
                            && env.check(trusted[id], p.signature, p.header + p.payload)
  {
    FrameUnframe(b);
    var p := Unframe(b).value;
    var h := env.decode(p.header).value;
    assert env.check(trusted[h.keyId.value], p.signature, p.header + p.payload);
  }

  // ----- Every verdict, exactly -----

  /** The buffer frames a header that decodes to h, and these are the payload and signature after it. */
  ghost predicate Framed(b: Bytes, p: Parts, h: Header, env: Env) {
    Framable(p) && b == Frame(p) && env.decode(p.header) == Some(h)
  }

  /** A signature algorithm other than the default one is named. */
  ghost predicate OtherAlgorithm(h: Header) { h.sigAlg != None && h.sigAlg != Some("ed25519") }

  ghost predicate KeyKnown(h: Header, trusted: map<string, string>) { h.keyId != None && h.keyId.value in trusted }

  /** Header and payload together were signed by the trusted key the header names. */
  ghost predicate Authentic(p: Parts, h: Header, trusted: map<string, string>, env: Env) {
    && !OtherAlgorithm(h) && KeyKnown(h, trusted)
    && env.check(trusted[h.keyId.value], p.signature, p.header + p.payload)
  }

  ghost predicate IsTensor(h: Header) { h.payloadType == None || h.payloadType == Some("tensor") }

  /** A missing dimension counts as zero here. */
  ghost predicate LengthFits(h: Header, payload: Bytes) {
    match h.d
    case None => payload == []
    case Some(d) => |payload| == 4 * (d * d)
  }

  /** A buffer is refused as a frame, or for its header's text, or it frames one header and one payload. */
  lemma FrameVerdict(b: Bytes, trusted: map<string, string>, env: Env)
    ensures forall e :: Parse(b, trusted, env) == Failure(BadFrame(e)) <==> Unframe(b) == Failure(e)
    ensures Parse(b, trusted, env) == Failure(MalformedHeader)
       <==> exists p :: Framable(p) && b == Frame(p) && env.decode(p.header) == None
    ensures Parse(b, trusted, env).Success? || !(Parse(b, trusted, env).error.BadFrame? || Parse(b, trusted, env).error == MalformedHeader)
       ==> exists p, h :: Framed(b, p, h, env)
  {
    if Unframe(b).Success? {
      var p := Unframe(b).value;
      FramingExact(b, p);
      if env.decode(p.header).Some? {
        assert Framed(b, p, env.decode(p.header).value, env);
      }
    }
    forall p | Framable(p) && b == Frame(p)
      ensures Unframe(b) == Success(p)
    {
      FramingExact(b, p);
    }
  }

  /** The verdict on a framed header and payload: authentication comes before any judgement of their meaning. */
  lemma HeaderVerdict(b: Bytes, trusted: map<string, string>, env: Env, p: Parts, h: Header)
    requires Framed(b, p, h, env)
    ensures var r, authentic, valid := Parse(b, trusted, env), Authentic(p, h, trusted, env), env.headerValid(h);
      && (r == Failure(UnsupportedSigAlg) <==> OtherAlgorithm(h))
      && (r == Failure(UnknownKey) <==> !OtherAlgorithm(h) && !KeyKnown(h, trusted))
      && (r == Failure(SignatureMismatch) <==> !OtherAlgorithm(h) && KeyKnown(h, trusted) && !authentic)
      && (r == Failure(InvalidHeader) <==> authentic && !valid)
      && (r == Failure(TensorLength) <==> authentic && valid && IsTensor(h) && !LengthFits(h, p.payload))
      && (r == Failure(BadShape) <==> authentic && valid && IsTensor(h) && LengthFits(h, p.payload) && h.d.Some? && h.d.value < 0)
      && (r == Failure(MissingField) <==> authentic && valid && FieldMissing(h, p.payload))
      && (r.Success? <==> authentic && valid && Complete(h, p.payload))
  {
    FramingExact(b, p);
    InterpretVerdict(h, p.payload, env);
  }

  /** Expired, revoked or ill-typed: exactly the authentic headers that fail their check, and none that is accepted. */
  lemma InvalidHeaderIff(b: Bytes, trusted: map<string, string>, env: Env)
    ensures Parse(b, trusted, env) == Failure(InvalidHeader)
       <==> exists p, h :: Framed(b, p, h, env) && Authentic(p, h, trusted, env) && !env.headerValid(h)
    ensures Parse(b, trusted, env).Success?
       <==> exists p, h :: Framed(b, p, h, env) && Authentic(p, h, trusted, env) && env.headerValid(h) && Complete(h, p.payload)
  {
    FrameVerdict(b, trusted, env);
    forall p, h | Framed(b, p, h, env)
      ensures Parse(b, trusted, env) == Failure(InvalidHeader) <==> Authentic(p, h, trusted, env) && !env.headerValid(h)
      ensures Parse(b, trusted, env).Success? <==> Authentic(p, h, trusted, env) && env.headerValid(h) && Complete(h, p.payload)
    {
      HeaderVerdict(b, trusted, env, p, h);
    }
  }

  /** A tensor without a dimension, or a state without a model or capabilities. */
  ghost predicate FieldMissing(h: Header, payload: Bytes) {
    if IsTensor(h) then
      LengthFits(h, payload) && (h.d == None || (h.d.value >= 0 && (h.modelId == None || h.capabilities == None)))
    else h.modelId == None || h.capabilities == None
  }

  ghost predicate Complete(h: Header, payload: Bytes) {
    && h.modelId != None && h.capabilities != None
    && (IsTensor(h) ==> h.d != None && h.d.value >= 0 && |payload| == 4 * (h.d.value * h.d.value))
  }

  lemma InterpretVerdict(h: Header, payload: Bytes, env: Env)
    ensures var r := Interpret(h, payload, env);
      && (r == Failure(InvalidHeader) <==> !env.headerValid(h))
      && (r == Failure(TensorLength) <==> env.headerValid(h) && IsTensor(h) && !LengthFits(h, payload))
      && (r == Failure(BadShape) <==>
            env.headerValid(h) && IsTensor(h) && LengthFits(h, payload) && h.d.Some? && h.d.value < 0)
      && (r == Failure(MissingField) <==> env.headerValid(h) && FieldMissing(h, payload))
      && (r.Success? <==> env.headerValid(h) && Complete(h, payload))
  {
    FourSquares(Default(h.d, 0));
  }

  lemma FourSquares(d: int)
    ensures d * d * 4 == 4 * (d * d)
  {
  }

  lemma FieldsOfHeader(h: Header, payload: Bytes, env: Env, c: CSO)
    requires Interpret(h, payload, env) == Success(c)
    ensures Some(c.modelId) == h.modelId && c.keyId == h.keyId
    ensures h.capabilities != None && forall x :: x in c.capabilities <==> x in h.capabilities.value
    ensures c.consent == if h.consent == None then "default" else h.consent.value
    ensures c.alpha == if h.alpha == None then "0.0" else h.alpha.value
    ensures c.layout == if h.layout == None then "row-major" else h.layout.value
    ensures c.meta == if h.meta == None then map[] else h.meta.value
    ensures c.payloadType == if h.payloadType == None then "tensor" else h.payloadType.value
    ensures (IsTensor(h) <==> c.m.Some?) && (IsTensor(h) <==> c.blob == None)
    ensures IsTensor(h) ==> c.m.value.rows == c.m.value.cols && Some(c.m.value.rows as int) == h.d
  {
  }

  /** What an accepted buffer means: every field is the header's, or the documented default where it has none. */
  lemma AcceptedMeans(b: Bytes, trusted: map<string, string>, env: Env, p: Parts, h: Header, c: CSO)
    requires Framed(b, p, h, env) && Parse(b, trusted, env) == Success(c)
    ensures Some(c.modelId) == h.modelId && c.keyId == h.keyId && Payload(c) == p.payload
    ensures h.capabilities != None && forall x :: x in c.capabilities <==> x in h.capabilities.value
    ensures c.consent == if h.consent == None then "default" else h.consent.value
    ensures c.alpha == if h.alpha == None then "0.0" else h.alpha.value
    ensures c.layout == if h.layout == None then "row-major" else h.layout.value
    ensures c.meta == if h.meta == None then map[] else h.meta.value
    ensures c.payloadType == if h.payloadType == None then "tensor" else h.payloadType.value
    ensures (IsTensor(h) <==> c.m.Some?) && (IsTensor(h) <==> c.blob == None)
    ensures IsTensor(h) ==> c.m.value.rows == c.m.value.cols && Some(c.m.value.rows as int) == h.d
  {
    FramingExact(b, p);
    FieldsOfHeader(h, p.payload, env, c);
    InterpretedPayload(h, p.payload, env);
  }

  // ----- What is sent -----

  /** The header of a state, field by field. */
  lemma HeaderSays(c: CSO)
    ensures var h := HeaderOf(c);
      && h.gfmVersion == Some("1.2") && h.sigAlg == Some("ed25519") && h.dtype == Some("float32")
      && h.modelId == Some(c.modelId) && h.alpha == Some(c.alpha) && h.layout == Some(c.layout)
      && h.consent == Some(c.consent) && h.meta == Some(c.meta) && h.keyId == c.keyId && h.payloadType == Some(c.payloadType)
      && h.d == Some(if c.m == None then 0 else c.m.value.rows)
      && h.capabilities != None && Ascending(StringLeq, h.capabilities.value)
      && forall x :: x in h.capabilities.value <==> x in c.capabilities
  {
  }

  /** Sending fails exactly when a length does not fit 32 bits. */
  lemma ToGfmIff(c: CSO, key: string, env: Env)
    requires Ideal(env)
    ensures ToGfm(c, key, env).Success? <==> |env.encode(HeaderOf(c))| < 0x1_0000_0000 && |Payload(c)| < 0x1_0000_0000
    ensures ToGfm(c, key, env).Failure? ==> ToGfm(c, key, env).error == TooLong
  {
    assert |env.sign(key, env.encode(HeaderOf(c)) + Payload(c))| == 64;
  }

  // ----- Round trip -----

  /** States the format can carry: a square tensor, or a payload of another type without a matrix beside it. */
  predicate Transportable(c: CSO) {
    if c.payloadType == "tensor" then c.m.Some? && c.m.value.rows == c.m.value.cols else c.m == None
  }

  /** The state as it arrives: a blob that was not there is there and empty, one beside a tensor is dropped. */
  function Delivered(c: CSO): CSO {
    c.(blob := if c.payloadType == "tensor" then None else Some(OrEmpty(c.blob)))
  }

  ghost predicate Deliverable(c: CSO, key: string, trusted: map<string, string>, env: Env) {
    && ValidCSO(c) && Ideal(env) && env.headerValid(HeaderOf(c))
    && c.keyId.Some? && c.keyId.value in trusted && trusted[c.keyId.value] == key
    && ToGfm(c, key, env).Success?
  }

  /** Which states can be delivered: those that fit the lengths, under a valid header that names a trusted key. */
  lemma DeliverableIff(c: CSO, key: string, trusted: map<string, string>, env: Env)
    requires ValidCSO(c) && Ideal(env)
    ensures Deliverable(c, key, trusted, env) <==>
      && env.headerValid(HeaderOf(c))
      && c.keyId.Some? && c.keyId.value in trusted && trusted[c.keyId.value] == key
      && |env.encode(HeaderOf(c))| < 0x1_0000_0000 && |Payload(c)| < 0x1_0000_0000
  {
    ToGfmIff(c, key, env);
  }

  /** Sending reduces to interpreting the header and payload that were sent. */
  lemma SentIsInterpreted(c: CSO, key: string, trusted: map<string, string>, env: Env)
    requires Deliverable(c, key, trusted, env)
    ensures Parse(ToGfm(c, key, env).value, trusted, env) == Interpret(HeaderOf(c), Payload(c), env)
  {
    var hdr, payload := env.encode(HeaderOf(c)), Payload(c);
    var p := Parts(hdr, payload, env.sign(key, hdr + payload));
    UnframeFrame(p);
    assert env.decode(p.header) == Some(HeaderOf(c));
    assert env.check(key, p.signature, p.header + p.payload);
  }

  lemma CapabilitiesSurvive(s: set<string>)
    ensures (set x | x in SortedElements(s)) == s
  {
  }

  lemma SquareTensor(m: Matrix)
    requires ValidMatrix(m)
    ensures |WordBytes(Flatten(m.cells))| == 4 * (m.rows * m.cols)
    ensures m.rows == m.cols ==>
      var ws := ToWords(WordBytes(Flatten(m.cells)));
      |ws| == m.rows * m.rows && Reshape(ws, m.rows) == m
  {
    FlattenLength(m.cells, m.cols);
    WordsRoundTrip(Flatten(m.cells));
    if m.rows == m.cols {
      ReshapeFlatten(m);
    }
  }

  lemma {:induction false} InterpretSent(c: CSO, env: Env)
    requires ValidCSO(c) && env.headerValid(HeaderOf(c))
    ensures var r := Interpret(HeaderOf(c), Payload(c), env);
      if c.payloadType != "tensor" then r == Success(Delivered(c).(m := None))
      else if |Payload(c)| != 4 * (Dim(c) * Dim(c)) then r == Failure(TensorLength)
      else r.Success? && r.value == Delivered(c).(m := r.value.m) && r.value.m.Some?
           && r.value.m.value.rows == r.value.m.value.cols == Dim(c)
           && (Transportable(c) ==> r.value.m == c.m)
  {
    CapabilitiesSurvive(c.capabilities);
    var d := Dim(c);
    assert d * d * 4 == 4 * (d * d);
    if c.m.Some? {
      SquareTensor(c.m.value);
    }
  }

  /**
   Round trip, both ways round: a deliverable state comes back as itself exactly when it is transportable.
   A tensor-typed state without a matrix, a matrix that is not square, and a matrix beside a payload of another
   type are the states that do not.
   */
  lemma RoundTrip(c: CSO, key: string, trusted: map<string, string>, env: Env)
    requires Deliverable(c, key, trusted, env)
    ensures Parse(ToGfm(c, key, env).value, trusted, env) == Success(Delivered(c)) <==> Transportable(c)
  {
    SentIsInterpreted(c, key, trusted, env);
    InterpretSent(c, env);
    if c.payloadType == "tensor" && c.m.Some? {
      SquareTensor(c.m.value);
    }
  }

  // ----- What one signature covers -----

  /** The bytes a state is signed as: header and payload, without the two lengths between which they are framed. */
  ghost function SignedBytes(c: CSO, env: Env): Bytes { env.encode(HeaderOf(c)) + Payload(c) }

  /** The signature of a state is accepted for no other key and no other bytes. */
  ghost predicate Binding(c: CSO, key: string, env: Env) {
    forall k, m :: env.check(k, env.sign(key, SignedBytes(c, env)), m) ==> k == key && m == SignedBytes(c, env)
  }

  ghost function SplitAt(c: CSO, cut: nat, key: string, env: Env): Parts
    requires cut <= |SignedBytes(c, env)|
  {
    var m := SignedBytes(c, env);
    Parts(m[..cut], m[cut..], env.sign(key, m))
  }

  /** A buffer that carries the signature of a sent state. */
  ghost predicate Carries(b: Bytes, c: CSO, key: string, env: Env) {
    Unframe(b).Success? && Unframe(b).value.signature == env.sign(key, SignedBytes(c, env))
  }

  lemma SentSplit(c: CSO, key: string, env: Env)
    requires ToGfm(c, key, env).Success?
    ensures var cut := |env.encode(HeaderOf(c))|;
      && cut <= |SignedBytes(c, env)| && Framable(SplitAt(c, cut, key, env))
      && ToGfm(c, key, env).value == Frame(SplitAt(c, cut, key, env))
  {
    var hdr, payload := env.encode(HeaderOf(c)), Payload(c);
    assert (hdr + payload)[..|hdr|] == hdr && (hdr + payload)[|hdr|..] == payload;
  }

  /** Whatever is accepted under that signature is a split of the signed bytes, cut somewhere. */
  lemma AcceptedIsSplit(b: Bytes, c: CSO, key: string, trusted: map<string, string>, env: Env)
    requires Binding(c, key, env) && Carries(b, c, key, env) && Parse(b, trusted, env).Success?
    ensures var cut := |Unframe(b).value.header|;
      cut <= |SignedBytes(c, env)| && Unframe(b) == Success(SplitAt(c, cut, key, env))
  {
    var p, m := Unframe(b).value, SignedBytes(c, env);
    var h := env.decode(p.header).value;
    assert env.check(trusted[h.keyId.value], env.sign(key, m), p.header + p.payload);
    assert m[..|p.header|] == p.header && m[|p.header|..] == p.payload;
  }

  /** An interpreted state holds the payload it was read from. */
  lemma InterpretedPayload(h: Header, payload: Bytes, env: Env)
    requires Interpret(h, payload, env).Success?
    ensures Payload(Interpret(h, payload, env).value) == payload
  {
    var back := Interpret(h, payload, env).value;
    if back.payloadType == "tensor" {
      var d := h.d.value;
      assert d * d * 4 == 4 * (d * d);
      WordBytesOfWords(payload);
      FlattenReshape(ToWords(payload), d);
    }
  }

  /**
   An accepted buffer under the signature of a sent state yields what the sent buffer yields exactly when it is
   the sent buffer: a cut elsewhere changes the length of the payload, and so the state.
   */
  lemma SameStateIff(b: Bytes, c: CSO, key: string, trusted: map<string, string>, env: Env)
    requires Binding(c, key, env) && Deliverable(c, key, trusted, env)
    requires Carries(b, c, key, env) && Parse(b, trusted, env).Success?
    ensures Parse(b, trusted, env) == Parse(ToGfm(c, key, env).value, trusted, env) <==> b == ToGfm(c, key, env).value
  {
    var sent, p := ToGfm(c, key, env).value, Unframe(b).value;
    AcceptedIsSplit(b, c, key, trusted, env);
    SentSplit(c, key, env);
    FrameUnframe(b);
    if Parse(b, trusted, env) == Parse(sent, trusted, env) {
      SentIsInterpreted(c, key, trusted, env);
      InterpretedPayload(env.decode(p.header).value, p.payload, env);
      InterpretedPayload(HeaderOf(c), Payload(c), env);
    }
  }

  /** The header before the cut names the signing key, and says of the rest what can be interpreted. */
  ghost predicate CutAccepted(c: CSO, cut: nat, key: string, trusted: map<string, string>, env: Env) {
    && cut <= |SignedBytes(c, env)| && Framable(SplitAt(c, cut, key, env))
    && var p := SplitAt(c, cut, key, env);
      var h := env.decode(p.header);
      && h.Some? && Default(h.value.sigAlg, SIG_ALG) == SIG_ALG
      && h.value.keyId.Some? && h.value.keyId.value in trusted && trusted[h.value.keyId.value] == key
      && Interpret(h.value, p.payload, env).Success?
  }

  lemma CutIsParsed(c: CSO, cut: nat, key: string, trusted: map<string, string>, env: Env)
    requires Ideal(env) && Binding(c, key, env) && cut <= |SignedBytes(c, env)| && Framable(SplitAt(c, cut, key, env))
    ensures Carries(Frame(SplitAt(c, cut, key, env)), c, key, env)
    ensures Parse(Frame(SplitAt(c, cut, key, env)), trusted, env).Success? <==> CutAccepted(c, cut, key, trusted, env)
  {
    var p, m := SplitAt(c, cut, key, env), SignedBytes(c, env);
    UnframeFrame(p);
    assert p.header + p.payload == m;
    var h := env.decode(p.header);
    if h.Some? && h.value.keyId.Some? && h.value.keyId.value in trusted {
      var pub := trusted[h.value.keyId.value];
      assert env.check(pub, env.sign(key, m), m) ==> pub == key;
      assert pub == key ==> env.check(pub, env.sign(key, m), m);
    }
  }

  /**
   The signature of a sent state authenticates some other state as well exactly when the signed bytes can be cut
   elsewhere, so that a header naming the signing key comes before the cut and its payload after it.
   */
  lemma SecondReadingIff(c: CSO, key: string, trusted: map<string, string>, env: Env)
    requires Binding(c, key, env) && Deliverable(c, key, trusted, env)
    ensures (exists b :: Carries(b, c, key, env) && Parse(b, trusted, env).Success?
                         && Parse(b, trusted, env) != Parse(ToGfm(c, key, env).value, trusted, env))
       <==> (exists cut: nat :: cut != |env.encode(HeaderOf(c))| && CutAccepted(c, cut, key, trusted, env))
  {
    var sent, own := ToGfm(c, key, env).value, |env.encode(HeaderOf(c))|;
    SentSplit(c, key, env);
    if cut: nat :| cut != own && CutAccepted(c, cut, key, trusted, env) {
      var b := Frame(SplitAt(c, cut, key, env));
      CutIsParsed(c, cut, key, trusted, env);
      UnframeFrame(SplitAt(c, cut, key, env));
      UnframeFrame(SplitAt(c, own, key, env));
      SameStateIff(b, c, key, trusted, env);
      assert Carries(b, c, key, env);
    }
    forall b | Carries(b, c, key, env) && Parse(b, trusted, env).Success? && Parse(b, trusted, env) != Parse(sent, trusted, env)
      ensures exists cut: nat :: cut != own && CutAccepted(c, cut, key, trusted, env)
    {
      var cut := |Unframe(b).value.header|;
      AcceptedIsSplit(b, c, key, trusted, env);
      FrameUnframe(b);
      CutIsParsed(c, cut, key, trusted, env);
    }
  }

  /** With one byte less, a payload of another type arrives as it is, and a tensor does not. */
  lemma {:induction false} ShorterPayload(c: CSO, blank: Byte, rest: Bytes, env: Env)
    requires env.headerValid(HeaderOf(c)) && Payload(c) == [blank] + rest
    ensures c.payloadType != "tensor" ==> Interpret(HeaderOf(c), rest, env) == Success(c.(m := None, blob := Some(rest)))
    ensures c.payloadType == "tensor" ==>
      Interpret(HeaderOf(c), rest, env).Failure? || Interpret(HeaderOf(c), Payload(c), env).Failure?
  {
    CapabilitiesSurvive(c.capabilities);
  }

  lemma {:induction false} BlankSplit(c: CSO, blank: Byte, rest: Bytes, key: string, env: Env)
    requires ToGfm(c, key, env).Success? && Payload(c) == [blank] + rest && |env.encode(HeaderOf(c))| + 1 < MAX_LENGTH
    ensures var cut := |env.encode(HeaderOf(c))| + 1;
      && cut <= |SignedBytes(c, env)| && Framable(SplitAt(c, cut, key, env))
      && SplitAt(c, cut, key, env) == Parts(env.encode(HeaderOf(c)) + [blank], rest, env.sign(key, SignedBytes(c, env)))
  {
    var hdr, m := env.encode(HeaderOf(c)), SignedBytes(c, env);
    assert m[..|hdr| + 1] == hdr + [blank] && m[|hdr| + 1..] == rest;
  }

  lemma {:induction false} BlankIsParsed(c: CSO, blank: Byte, rest: Bytes, p: Parts, key: string, trusted: map<string, string>, env: Env)
    requires Deliverable(c, key, trusted, env) && Payload(c) == [blank] + rest && Framable(p)
    requires p == Parts(env.encode(HeaderOf(c)) + [blank], rest, env.sign(key, SignedBytes(c, env)))
    requires env.decode(p.header) == Some(HeaderOf(c))
    ensures Parse(Frame(p), trusted, env) == Interpret(HeaderOf(c), rest, env)
  {
    UnframeFrame(p);
    assert p.header + p.payload == SignedBytes(c, env);
    assert env.check(key, p.signature, SignedBytes(c, env));
  }

  /**
   JSON allows blanks after a value, so a blob that starts with one can lose it to the header; a tensor cannot,
   because its length is bound to the dimension in the header.
   */
  lemma {:induction false} BlankLost(c: CSO, blank: Byte, rest: Bytes, key: string, trusted: map<string, string>, env: Env)
    requires Deliverable(c, key, trusted, env) && Payload(c) == [blank] + rest
    requires |env.encode(HeaderOf(c))| + 1 < MAX_LENGTH
    requires env.decode(env.encode(HeaderOf(c)) + [blank]) == Some(HeaderOf(c))
    ensures var cut := |env.encode(HeaderOf(c))| + 1;
      && cut <= |SignedBytes(c, env)| && Framable(SplitAt(c, cut, key, env))
      && var b := Frame(SplitAt(c, cut, key, env));
        if c.payloadType != "tensor" then Parse(b, trusted, env) == Success(c.(m := None, blob := Some(rest)))
        else Parse(b, trusted, env).Failure? || Parse(ToGfm(c, key, env).value, trusted, env).Failure?
  {
    BlankSplit(c, blank, rest, key, env);
    BlankIsParsed(c, blank, rest, SplitAt(c, |env.encode(HeaderOf(c))| + 1, key, env), key, trusted, env);
    ShorterPayload(c, blank, rest, env);
    SentIsInterpreted(c, key, trusted, env);
  }

  // ----- Content identity -----

  /** What is hashed: the identity record, which is self-delimiting JSON, and the payload after it. */
  datatype ContentHash = ContentHash(modelId: string, d: nat, dtype: string, alpha: string, layout: string,
                                     capabilities: seq<string>, consent: string, meta: map<string, string>,
                                     payloadType: string, payload: Bytes)

  ghost function HashOf(c: CSO): ContentHash {
    ContentHash(c.modelId, Dim(c), "float32", c.alpha, c.layout, SortedElements(c.capabilities), c.consent,
                c.meta - {PROVENANCE}, c.payloadType, Payload(c))
  }

  /** The hash is blind to the signer and to provenance, and to nothing else the state is made of. */
  lemma HashIdentifies(a: CSO, b: CSO)
    ensures HashOf(a) == HashOf(b) <==>
      && a.modelId == b.modelId && Dim(a) == Dim(b) && a.alpha == b.alpha && a.layout == b.layout
      && a.capabilities == b.capabilities && a.consent == b.consent && a.payloadType == b.payloadType
      && a.meta - {"provenance"} == b.meta - {"provenance"} && Payload(a) == Payload(b)
  {
    CapabilitiesSurvive(a.capabilities);
    CapabilitiesSurvive(b.capabilities);
  }

  /**
   The content hash survives transport exactly when the matrix dimension does: it changes only for a state of
   another payload type that carries a matrix as well, whose dimension is hashed but not delivered.
   */
  lemma HashSurvives(c: CSO, key: string, trusted: map<string, string>, env: Env)
    requires Deliverable(c, key, trusted, env)
    ensures var back := Parse(ToGfm(c, key, env).value, trusted, env);
      back.Success? ==> (HashOf(back.value) == HashOf(c) <==> c.payloadType == "tensor" || Dim(c) == 0)
  {
    SentIsInterpreted(c, key, trusted, env);
    InterpretSent(c, env);
    if c.payloadType == "tensor" && Parse(ToGfm(c, key, env).value, trusted, env).Success? {
      var back := Parse(ToGfm(c, key, env).value, trusted, env).value;
      PayloadSurvives(c, back, env);
    }
  }

  lemma {:induction false} WordBytesOfWords(b: Bytes)
    requires |b| == 4 * (|b| / 4)
    ensures WordBytes(ToWords(b)) == b
    decreases |b|
  {
    if b != [] {
      WordBytesOfWords(b[4..]);
    }
  }

  lemma PayloadSurvives(c: CSO, back: CSO, env: Env)
    requires ValidCSO(c) && c.payloadType == "tensor" && env.headerValid(HeaderOf(c))
    requires Interpret(HeaderOf(c), Payload(c), env) == Success(back)
    ensures Payload(back) == Payload(c)
  {
    var d, b := Dim(c), Payload(c);
    assert d * d * 4 == 4 * (d * d);
    WordBytesOfWords(b);
    FlattenReshape(ToWords(b), d);
  }

  /** Flattening what was reshaped gives the flat list back. */
  lemma FlattenReshape(ws: seq<Word>, d: nat)
    requires |ws| == d * d
    ensures Flatten(Reshape(ws, d).cells) == ws
  {
    var m := Reshape(ws, d);
    FlattenLength(m.cells, d);
    forall k | 0 <= k < |ws|
      ensures Flatten(m.cells)[k] == ws[k]
    {
      var i, j := k / d, k % d;
      RowOf(k, d);
      FlattenAt(m.cells, d, i, j);
    }
  }

  lemma RowOf(k: nat, d: nat)
    requires k < d * d
    ensures d > 0 && k / d < d && k % d < d && (k / d) * d + k % d == k
  {
    assert k == d * (k / d) + k % d;
  }

  /** Two signers of one state send the same content. */
  lemma HashIgnoresSigner(c: CSO, keyId: Option<string>, provenance: string)
    ensures HashOf(c.(keyId := keyId)) == HashOf(c)
    ensures HashOf(c.(meta := c.meta["provenance" := provenance])) == HashOf(c)
  {
    var c' := c.(meta := c.meta[PROVENANCE := provenance]);
    assert c'.meta - {PROVENANCE} == c.meta - {PROVENANCE};
  }
}
