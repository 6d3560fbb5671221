/** The signed mutations of the Cloud client: what is signed is what is sent. */
module CloudRest {
  import opened Wrappers
  import opened Bytes
  import opened Text
  import opened Percent
  import opened UrlStandard

  datatype Mutation = KillRun | SetBudget | SetUnitBudget | AckIncident

  function Collection(m: Mutation): string {
    match m
    case KillRun => "runs"
    case SetBudget => "runs"
    case SetUnitBudget => "units"
    case AckIncident => "incidents"
  }

  function Verb(m: Mutation): string {
    match m
    case KillRun => "kill"
    case SetBudget => "budget"
    case SetUnitBudget => "budget"
    case AckIncident => "ack"
  }

  function PathOf(m: Mutation, segment: string): string {
    "/v1/" + Collection(m) + "/" + segment + "/" + Verb(m)
  }

  predicate Accepted(id: seq<Byte>) {
    id != [] && id != DOT && id != DOTS
  }

  function MutationPath(m: Mutation, id: seq<Byte>): string {
    PathOf(m, Encode(IsLiteralPchar, id))
  }

  // ---- the path ----------------------------------------------------------------

  function Segments(m: Mutation, segment: string): seq<string> {
    ["v1", Collection(m), segment, Verb(m)]
  }

  lemma JoinFour(a: string, b: string, c: string, d: string, sep: string)
    ensures Join([a, b, c, d], sep) == a + sep + (b + sep + (c + sep + d))
  {
    assert [c, d][1..] == [d] && Join([c, d], sep) == c + sep + d;
    assert [b, c, d][1..] == [c, d] && Join([b, c, d], sep) == b + sep + (c + sep + d);
    assert [a, b, c, d][1..] == [b, c, d];
  }

  lemma PathIsJoin(m: Mutation, segment: string)
    ensures PathOf(m, segment) == "/" + Join(Segments(m, segment), "/")
  {
    JoinFour("v1", Collection(m), segment, Verb(m), "/");
    assert "/v1/" == "/" + "v1" + "/";
  }

  lemma SegmentsPlain(m: Mutation, id: seq<Byte>)
    requires Accepted(id)
    ensures forall s :: s in Segments(m, Encode(IsLiteralPchar, id)) ==> IsPlainSegment(s)
  {
    EncodedIdIsPlain(id);
    FixedSegmentsPlain(m);
  }

  lemma LettersPlain(s: string)
    requires s != "" && forall i :: 0 <= i < |s| ==> 'a' <= s[i] <= 'z' || '0' <= s[i] <= '9'
    ensures IsPlainSegment(s)
  {
    assert LowerHex(s)[0] == s[0];
    forall i | 0 <= i < |s| ensures IsPlain(s[i]) {
      assert 'a' <= s[i] <= 'z' || '0' <= s[i] <= '9';
    }
  }

  lemma FixedSegmentsPlain(m: Mutation)
    ensures IsPlainSegment("v1") && IsPlainSegment(Collection(m)) && IsPlainSegment(Verb(m))
  {
    LettersPlain("v1");
    LettersPlain(Collection(m));
    LettersPlain(Verb(m));
  }

  lemma MutationSegments(m: Mutation, id: seq<Byte>) returns (segments: seq<string>)
    requires Accepted(id)
    ensures segments != [] && forall s :: s in segments ==> IsPlainSegment(s)
    ensures MutationPath(m, id) == "/" + Join(segments, "/") == Serialize(segments)
  {
    segments := Segments(m, Encode(IsLiteralPchar, id));
    PathIsJoin(m, Encode(IsLiteralPchar, id));
    SegmentsPlain(m, id);
    SerializeJoin(segments);
  }

  /** A base text that puts nothing in front of the path and does not cut it off. */
  predicate Harmless(base: string) {
    var clean := RemoveTabsAndNewlines(base);
    !HasQuery(clean) && Front(clean) == []
  }

  /** Whatever the base text, the path sent is the signed one behind the base's own segments, or the base's own alone. */
  lemma SentPath(base: string, m: Mutation, id: seq<Byte>)
    requires Accepted(id)
    ensures
      var clean := RemoveTabsAndNewlines(base);
      ParsedPath(base + MutationPath(m, id)) ==
      if HasQuery(clean) then Serialize(PathState(PathInput(clean), "", []))
      else Serialize(Front(clean)) + MutationPath(m, id)
  {
    var segments := MutationSegments(m, id);
    if HasQuery(RemoveTabsAndNewlines(base)) {
      PathAfterQuery(base, segments);
    } else {
      PathAfterFront(base, segments);
    }
  }

  lemma NothingInFront(front: seq<string>, path: string)
    ensures Serialize(front) + path == path <==> front == []
  {
    assert "" + path == path;
    assert |Serialize(front) + path| == |Serialize(front)| + |path|;
  }

  /** Behind a base without `?` and `#`, one mutation is sent as signed exactly when the base puts nothing in front. */
  lemma OneSentAsSigned(base: string, m: Mutation, id: seq<Byte>)
    requires Accepted(id) && !HasQuery(RemoveTabsAndNewlines(base))
    ensures ParsedPath(base + MutationPath(m, id)) == MutationPath(m, id) <==> Harmless(base)
  {
    SentPath(base, m, id);
    NothingInFront(Front(RemoveTabsAndNewlines(base)), MutationPath(m, id));
  }

  /** From a bare origin, for every id that is accepted, parsing the URL returns the signed path unchanged. */
  lemma SignedPathIsSentPath(m: Mutation, id: seq<Byte>)
    requires Accepted(id)
    ensures ParsedPath(MutationPath(m, id)) == MutationPath(m, id)
  {
    OneSentAsSigned("", m, id);
    assert "" + MutationPath(m, id) == MutationPath(m, id);
  }

  ghost predicate SendsWhatIsSigned(base: string) {
    forall m, id :: Accepted(id) ==> ParsedPath(base + MutationPath(m, id)) == MutationPath(m, id)
  }

  /**
   * For every base text: all mutations are sent under the path they are signed
   * for if and only if the base holds no `?` or `#` and the segments it has
   * cancel out.
   */
  lemma BasePathBreaksSigning(base: string)
    ensures SendsWhatIsSigned(base) <==> Harmless(base)
  {
    if HasQuery(RemoveTabsAndNewlines(base)) {
      // The same path is sent for both of these, but they are signed differently.
      SentPath(base, KillRun, [97]);
      SentPath(base, SetBudget, [97]);
      PathsAreDistinct(KillRun, [97], SetBudget, [97]);
      assert Accepted([97]);
    } else {
      OneSentAsSigned(base, KillRun, [97]);
      assert Accepted([97]);
      forall m, id | Accepted(id) && Harmless(base)
        ensures ParsedPath(base + MutationPath(m, id)) == MutationPath(m, id)
      {
        OneSentAsSigned(base, m, id);
      }
    }
  }

  /** A base path of plain segments is sent in front of the signed path. */
  lemma PlainBaseIsSent(base: seq<string>, m: Mutation, id: seq<Byte>)
    requires Accepted(id) && forall s :: s in base ==> IsPlainSegment(s)
    ensures
      var prefix := Serialize(base);
      var path := MutationPath(m, id);
      && ParsedPath(prefix + path) == prefix + path
      && (ParsedPath(prefix + path) == path <==> base == [])
  {
    var segments := MutationSegments(m, id);
    SerializeAppend(base, segments);
    SerializeJoin(base + segments);
    PlainPathSurvives(base + segments);
    NothingInFront(base, MutationPath(m, id));
  }

  /** A dot segment cancels out. */
  lemma DotIsHarmless()
    ensures Harmless("/.")
  {
    NothingRemoved("/.");
    assert PathInput("/.") == ".";
    assert PathChar('.') == "." && "" + "." == "." && "."[1..] == "";
    assert PathRun(".", "", []) == ([], ".");
    assert LowerHex(".") == ".";
  }

  /** A base without its trailing slashes. */
  function TrimEndSlashes(s: string): (r: string)
    ensures r == "" || r[|r| - 1] != '/'
    ensures r <= s && forall i :: |r| <= i < |s| ==> s[i] == '/'
  {
    if s != "" && s[|s| - 1] == '/' then TrimEndSlashes(s[..|s| - 1]) else s
  }

  /** A bare origin is harmless with any number of slashes behind it. */
  lemma BareOriginIsHarmless(slashes: string)
    requires forall c :: c in slashes ==> c == '/'
    ensures TrimEndSlashes(slashes) == "" && Harmless(TrimEndSlashes(slashes))
  {
    assert forall i :: 0 <= i < |slashes| ==> slashes[i] in slashes;
  }

  /** Left in place, a lone slash is an empty segment, and stays; a query swallows the path. */
  lemma SlashAndQueryHarm()
    ensures !Harmless("/") && !Harmless("?x")
  {
    NothingRemoved("/");
    assert PathInput("/") == "" && LowerHex("") == "";
    NothingRemoved("?x");
    assert EndsPath("?x"[0]);
  }

  lemma SplitPath(m: Mutation, segment: string)
    requires '/' !in segment
    ensures SplitOn(PathOf(m, segment), '/') == [""] + Segments(m, segment)
  {
    var parts := [""] + Segments(m, segment);
    PathIsJoin(m, segment);
    assert parts[1..] == Segments(m, segment);
    SplitJoin(parts, '/');
  }

  lemma NoSlash(id: seq<Byte>)
    requires Accepted(id)
    ensures '/' !in Encode(IsLiteralPchar, id)
  {
    EncodedIdIsPlain(id);
    var s := Encode(IsLiteralPchar, id);
    assert forall i :: 0 <= i < |s| ==> IsPlain(s[i]);
  }

  lemma SegmentsDiffer(m: Mutation, a: string, n: Mutation, b: string)
    requires [""] + Segments(m, a) == [""] + Segments(n, b)
    ensures m == n && a == b
  {
    var p, q := [""] + Segments(m, a), [""] + Segments(n, b);
    assert p[2] == q[2] && p[3] == q[3] && p[4] == q[4];
    assert "runs"[0] == 'r' && "units"[0] == 'u' && "incidents"[0] == 'i' && "kill"[0] == 'k' && "budget"[0] == 'b';
  }

  /** The route of a mutation, word by word, around a segment that stands for the id. */
  ghost predicate IsRoute(m: Mutation, id: seq<Byte>, path: string) {
    var parts := SplitOn(path, '/');
    && |parts| == 5 && Decode(parts[3]) == Some(id)
    && match m
       case KillRun => parts[..3] == ["", "v1", "runs"] && parts[4] == "kill"
       case SetBudget => parts[..3] == ["", "v1", "runs"] && parts[4] == "budget"
       case SetUnitBudget => parts[..3] == ["", "v1", "units"] && parts[4] == "budget"
       case AckIncident => parts[..3] == ["", "v1", "incidents"] && parts[4] == "ack"
  }

  /** Every mutation goes to its own route. */
  lemma RouteOfMutation(m: Mutation, id: seq<Byte>)
    requires Accepted(id)
    ensures IsRoute(m, id, MutationPath(m, id))
  {
    var e := Encode(IsLiteralPchar, id);
    NoSlash(id);
    SplitPath(m, e);
    DecodeEncode(IsLiteralPchar, id);
    assert ([""] + Segments(m, e))[..3] == ["", "v1", Collection(m)];
  }

  /** Five parts always, and no two (mutation, id) pairs share a path. */
  lemma PathsAreDistinct(m: Mutation, id: seq<Byte>, n: Mutation, other: seq<Byte>)
    requires Accepted(id) && Accepted(other)
    ensures |SplitOn(MutationPath(m, id), '/')| == 5
    ensures MutationPath(m, id) == MutationPath(n, other) <==> m == n && id == other
  {
    var a, b := Encode(IsLiteralPchar, id), Encode(IsLiteralPchar, other);
    NoSlash(id);
    NoSlash(other);
    SplitPath(m, a);
    SplitPath(n, b);
    if MutationPath(m, id) == MutationPath(n, other) {
      SegmentsDiffer(m, a, n, b);
      EncodeInjective(IsLiteralPchar, id, other);
    }
  }

  // ---- the client ----------------------------------------------------------------

  type Signature = string

  datatype Device = Device(id: string, token: string)

  /** One request on the wire; its URL is the base URL's origin, then `target`. */
  datatype Sent = Sent(target: string, bearer: string, deviceId: string, signature: Signature, body: seq<Byte>)

  datatype ConnectorError = NoDeviceSigner | Signing | InvalidPathSegment(error: PathSegmentError)

  /** The signer: a signature over method, path and body, or a failure. */
  type Signer = (string, string, seq<Byte>) -> Option<Signature>

  /** The request for `path`, signed over that path and its body. */
  function SignedRequest(sign: Signer, basePath: string, d: Device, path: string, body: seq<Byte>): Sent
    requires sign("POST", path, body).Some?
  {
    Sent(basePath + path, d.token, d.id, sign("POST", path, body).value, body)
  }

  /** The signature is over the path and the body that arrive. */
  ghost predicate SignatureCovers(sign: Signer, r: Sent) {
    sign("POST", ParsedPath(r.target), r.body) == Some(r.signature)
  }

  lemma SignatureCoversWhatIsSent(sign: Signer, basePath: string, d: Device, m: Mutation, id: seq<Byte>, body: seq<Byte>)
    requires Harmless(basePath) && Accepted(id) && sign("POST", MutationPath(m, id), body).Some?
    ensures SignatureCovers(sign, SignedRequest(sign, basePath, d, MutationPath(m, id), body))
  {
    OneSentAsSigned(basePath, m, id);
  }

  class CloudClient {
    const sign: Signer
    /** What the base URL holds after its authority, but for trailing slashes: nothing for a bare origin. */
    const basePath: string
    var device: Option<Device>
    var wire: seq<Sent>

    /** From a base that keeps paths whole, every request ever sent is signed for what it delivers. */
    ghost predicate AllCovered()
      reads this
    {
      Harmless(basePath) ==> forall r :: r in wire ==> SignatureCovers(sign, r)
    }

    constructor (sign: Signer, afterAuthority: string)
      ensures AllCovered()
      ensures this.sign == sign && basePath == TrimEndSlashes(afterAuthority)
      ensures device == None && wire == []
    {
      this.sign, basePath := sign, TrimEndSlashes(afterAuthority);
      device, wire := None, [];
    }

    method AttachDevice(d: Device)
      requires AllCovered()
      modifies this
      ensures AllCovered()
      ensures device == Some(d) && wire == old(wire)
    {
      device := Some(d);
    }

    /** Reached through the mutations only. */
    method SignedPost(path: string, body: seq<Byte>) returns (r: Result<(), ConnectorError>)
      modifies this
      ensures device == old(device)
      ensures r.Err? ==> wire == old(wire)
      ensures r.Err? <==> device.None? || sign("POST", path, body).None?
      ensures r.Err? ==> r.error == if device.None? then NoDeviceSigner else Signing
      ensures r.Ok? ==> wire == old(wire) + [SignedRequest(sign, basePath, device.value, path, body)]
      ensures r.Ok? ==>
                var sent := wire[|old(wire)|];
                && sent.target == basePath + path && sent.body == body
                && sent.bearer == device.value.token && sent.deviceId == device.value.id
                && Some(sent.signature) == sign("POST", path, body)
    {
      if device.None? {
        return Err(NoDeviceSigner);
      }
      var signature := sign("POST", path, body);
      if signature.None? {
        return Err(Signing);
      }
      wire := wire + [Sent(basePath + path, device.value.token, device.value.id, signature.value, body)];
      return Ok(());
    }

    /**
     * Any of the four mutations: the id becomes one segment, then sign and send;
     * an id that cannot be a segment, or no device, sends nothing.
     */
    method Mutate(m: Mutation, id: seq<Byte>, body: seq<Byte>) returns (r: Result<(), ConnectorError>)
      requires AllCovered()
      modifies this
      ensures AllCovered()
      ensures device == old(device)
      ensures r.Err? ==> wire == old(wire)
      ensures r.Ok? <==> Accepted(id) && device.Some? && sign("POST", MutationPath(m, id), body).Some?
      ensures r.Err? && !Accepted(id) ==> r.error == InvalidPathSegment(if id == [] then Empty else DotSegment(id))
      ensures r.Err? && Accepted(id) ==> r.error == if device.None? then NoDeviceSigner else Signing
      ensures r.Ok? ==>
                wire == old(wire) + [SignedRequest(sign, basePath, device.value, MutationPath(m, id), body)]
      ensures r.Ok? ==>
                var sent := wire[|old(wire)|];
                basePath <= sent.target && IsRoute(m, id, sent.target[|basePath|..]) && sent.body == body
    {
      var segment := PathSegment(id);
      if segment.Err? {
        return Err(InvalidPathSegment(segment.error));
      }
      r := SignedPost(PathOf(m, segment.value), body);
      RouteOfMutation(m, id);
      assert (basePath + MutationPath(m, id))[|basePath|..] == MutationPath(m, id);
      if r.Ok? && Harmless(basePath) {
        SignatureCoversWhatIsSent(sign, basePath, device.value, m, id, body);
      }
    }
  }
}
