/** The policy decision point, in process and behind the wire. */
module Abac {
  import opened Binary
  import opened Wire
  import opened Message
  import opened Options
  import opened Writing
  import opened Schemas
  import opened Arriving
  import opened Transport

  /** None is a nil map. */
  type Attributes = Option<map<Bytes, Bytes>>

  datatype Subject = Subject(userId: int, username: Bytes, role: Bytes, attributes: Attributes)
  datatype Request = Request(
    subject: Subject, resource: Bytes, action: Bytes, resourceAttributes: Attributes, context: Attributes)
  datatype Decision = Decision(allowed: bool, reason: Bytes, matchedPolicy: Bytes)
  datatype Policy = Policy(
    name: Bytes, resource: Bytes, action: Bytes, role: Bytes, allow: bool, condition: Option<Request -> bool>)

  const ANY := Ascii("*")

  /** Indexing a Go map: a missing key, or a nil map, gives the empty string. */
  function At(a: Attributes, key: Bytes): Bytes
  {
    if a.Some? && key in a.value then a.value[key] else []
  }

  predicate Matches(p: Policy, req: Request)
  {
    && (p.resource == ANY || p.resource == req.resource)
    && (p.action == ANY || p.action == req.action)
    && (p.role == ANY || p.role == req.subject.role)
    && (p.condition.None? || p.condition.value(req))
  }

  function Outcome(p: Policy): Decision
  {
    Decision(p.allow, Ascii(if p.allow then "allow" else "deny") + Ascii(" by policy ") + p.name, p.name)
  }

  const DEFAULT_DENY := Decision(false, Ascii("no matching policy (default-deny)"), [])

  function Evaluate(req: Request, policies: seq<Policy>): Decision
  {
    if policies == [] then DEFAULT_DENY
    else if Matches(policies[0], req) then Outcome(policies[0])
    else Evaluate(req, policies[1..])
  }

  const POST_NAME := Ascii("post")
  const MFA := Ascii("mfa")
  const TRUE := Ascii("true")

  function DefaultPolicies(): seq<Policy>
  {
    [ Policy(Ascii("admin-full-access"), ANY, ANY, Ascii("admin"), true, None),
      Policy(Ascii("editor-delete-requires-mfa"), POST_NAME, Ascii("delete"), Ascii("editor"), true,
        Some((r: Request) => At(r.context, MFA) == TRUE)),
      Policy(Ascii("editor-write"), POST_NAME, Ascii("write"), Ascii("editor"), true, None),
      Policy(Ascii("editor-read"), POST_NAME, Ascii("read"), Ascii("editor"), true, None),
      Policy(Ascii("viewer-read"), POST_NAME, Ascii("read"), Ascii("viewer"), true, None) ]
  }

  // ---------- what Evaluate decides

  /** The first matching policy decides. */
  lemma {:induction false} FirstMatchDecides(req: Request, policies: seq<Policy>, i: nat)
    requires i < |policies| && Matches(policies[i], req) && forall j | 0 <= j < i :: !Matches(policies[j], req)
    ensures Evaluate(req, policies) == Outcome(policies[i])
    ensures Evaluate(req, policies).allowed == policies[i].allow
    ensures Evaluate(req, policies).matchedPolicy == policies[i].name
    decreases i
  {
    hide Matches;
    if i > 0 {
      assert !Matches(policies[0], req);
      FirstMatchDecides(req, policies[1..], i - 1);
    }
  }

  /** Without a match the answer is deny. */
  lemma {:induction false} NoMatchDenies(req: Request, policies: seq<Policy>)
    requires forall p <- policies :: !Matches(p, req)
    ensures Evaluate(req, policies) == Decision(false, Ascii("no matching policy (default-deny)"), [])
  {
    hide Matches, Outcome;
    if policies != [] {
      NoMatchDenies(req, policies[1..]);
    }
  }

  /** Policies that only allow grant exactly what some policy matches. */
  lemma {:induction false} AllowedIffMatched(req: Request, policies: seq<Policy>)
    requires forall p <- policies :: p.allow
    ensures Evaluate(req, policies).allowed <==> exists i | 0 <= i < |policies| :: Matches(policies[i], req)
  {
    hide Matches;
    if policies != [] {
      var rest := policies[1..];
      AllowedIffMatched(req, rest);
      assert policies[0].allow;
      if i :| 0 < i < |policies| && Matches(policies[i], req) {
        assert rest[i - 1] == policies[i];
      }
      if i :| 0 <= i < |rest| && Matches(rest[i], req) {
        assert policies[i + 1] == rest[i];
      }
    }
  }

  /** A named resource or action is not the wildcard, and neither is a named role. */
  lemma NotWild(s: string)
    requires |s| > 1
    ensures Ascii(s) != ANY
  {
    assert |ANY| == 1;
  }

  lemma AllWild(p: Policy, req: Request)
    requires p.resource == ANY && p.action == ANY && p.role != ANY && p.condition.None?
    ensures Matches(p, req) <==> req.subject.role == p.role
  {}

  lemma NoWild(p: Policy, req: Request)
    requires p.resource != ANY && p.action != ANY && p.role != ANY
    ensures Matches(p, req) <==>
      req.resource == p.resource && req.action == p.action && req.subject.role == p.role &&
      (p.condition.None? || p.condition.value(req))
  {}

  /** A policy applies to its resource, action and role, "*" standing for any, under its condition. */
  lemma MatchesIff(p: Policy, req: Request)
    ensures Matches(p, req) <==>
      && p.resource in {Ascii("*"), req.resource} && p.action in {Ascii("*"), req.action}
      && p.role in {Ascii("*"), req.subject.role} && (p.condition.Some? ==> p.condition.value(req))
  {
    hide Ascii;
  }

  /** The access the default policies grant, and no other. */
  lemma {:induction false} DefaultAccess(req: Request)
    ensures Evaluate(req, DefaultPolicies()).allowed <==>
      var role := req.subject.role;
      || role == Ascii("admin")
      || (req.resource == Ascii("post") && role == Ascii("editor") &&
          (req.action == Ascii("write") || req.action == Ascii("read") ||
           (req.action == Ascii("delete") && req.context.Some? && Ascii("mfa") in req.context.value &&
            req.context.value[Ascii("mfa")] == Ascii("true"))))
      || (req.resource == Ascii("post") && role == Ascii("viewer") && req.action == Ascii("read"))
  {
    var ps := DefaultPolicies();
    assert |ps| == 5;
    NotWild("post");
    NotWild("delete");
    NotWild("write");
    NotWild("read");
    NotWild("admin");
    NotWild("editor");
    NotWild("viewer");
    assert |TRUE| == 4;
    hide Matches, Evaluate, Ascii, ANY;
    AllowedIffMatched(req, ps);
    AllWild(ps[0], req);
    NoWild(ps[1], req);
    NoWild(ps[2], req);
    NoWild(ps[3], req);
    NoWild(ps[4], req);
    assert (exists i | 0 <= i < |ps| :: Matches(ps[i], req)) <==>
      Matches(ps[0], req) || Matches(ps[1], req) || Matches(ps[2], req) || Matches(ps[3], req) || Matches(ps[4], req);
  }

  // ---------- Authorize behind the wire

  function AttributesVal(a: Attributes): Val
  {
    if a.None? then VNil else VMap(map k | k in a.value :: VStr(k) := VStr(a.value[k]))
  }

  predicate IsAttributes(v: Val)
  {
    v.VNil? || (v.VMap? && forall k <- v.m :: k.VStr? && v.m[k].VStr?)
  }

  function AttributesOf(v: Val): Attributes
    requires IsAttributes(v)
  {
    if v.VNil? then None else Some(map k | k in v.m :: k.s := v.m[k].s)
  }

  lemma AttributesBack(a: Attributes)
    ensures IsAttributes(AttributesVal(a)) && AttributesOf(AttributesVal(a)) == a
  {
    if a.Some? {
      var v := AttributesVal(a);
      forall k | k in v.m ensures k.VStr? && v.m[k].VStr? {}
      var b := AttributesOf(v).value;
      assert forall k :: k in a.value <==> VStr(k) in v.m;
      assert forall k :: k in b <==> VStr(k) in v.m;
      assert forall k :: k in b ==> b[k] == v.m[VStr(k)].s;
      assert b == a.value;
    }
  }

  function SubjectVal(s: Subject): map<int, Val>
  {
    map[1 := VInt(s.userId), 2 := VStr(s.username), 3 := VStr(s.role), 4 := AttributesVal(s.attributes)]
  }

  /** The AuthorizeRequest the gateway sends. */
  function RequestVal(r: Request): map<int, Val>
  {
    map[1 := VStruct(GATEWAY), 2 := VStruct(SubjectVal(r.subject)), 3 := VStr(r.resource), 4 := VStr(r.action),
        5 := AttributesVal(r.resourceAttributes), 6 := AttributesVal(r.context)]
  }

  predicate IsRequest(f: map<int, Val>)
  {
    && {2, 3, 4, 5, 6} <= f.Keys
    && f[2].VStruct? && {1, 2, 3, 4} <= f[2].f.Keys
    && f[2].f[1].VInt? && f[2].f[2].VStr? && f[2].f[3].VStr? && IsAttributes(f[2].f[4])
    && f[3].VStr? && f[4].VStr? && IsAttributes(f[5]) && IsAttributes(f[6])
  }

  /** The abac.Request the server evaluates. */
  function RequestOf(f: map<int, Val>): Request
    requires IsRequest(f)
  {
    var s := f[2].f;
    Request(Subject(s[1].i, s[2].s, s[3].s, AttributesOf(s[4])), f[3].s, f[4].s, AttributesOf(f[5]), AttributesOf(f[6]))
  }

  function DecisionVal(d: Decision): map<int, Val>
  {
    map[1 := VBool(d.allowed), 2 := VStr(d.reason), 3 := VStr(d.matchedPolicy), 255 := OK_RESP]
  }

  function DecisionOf(f: map<int, Val>): Decision
    requires {1, 2, 3} <= f.Keys && f[1].VBool? && f[2].VStr? && f[3].VStr?
  {
    Decision(f[1].b, f[2].s, f[3].s)
  }

  /** The request as it arrives: the required subject attributes are never nil. */
  function Arrived(r: Request): Request
  {
    r.(subject := ArrivedSubject(r.subject))
  }

  function ArrivedSubject(s: Subject): Subject
  {
    if s.attributes.None? then s.(attributes := Some(map[])) else s
  }

  predicate SendableAttributes(a: Attributes)
  {
    a.Some? ==> |a.value| < MAX_SIZE && forall k <- a.value :: |k| < MAX_SIZE && |a.value[k]| < MAX_SIZE
  }

  /** Sizes and the user id fit the wire. */
  predicate SendableRequest(r: Request)
  {
    && Fits(r.subject.userId, 8) && |r.subject.username| < MAX_SIZE && |r.subject.role| < MAX_SIZE
    && |r.resource| < MAX_SIZE && |r.action| < MAX_SIZE
    && SendableAttributes(r.subject.attributes) && SendableAttributes(r.resourceAttributes)
    && SendableAttributes(r.context)
  }

  lemma AttributesTyped(a: Attributes)
    requires SendableAttributes(a)
    ensures HasType(TMap(SStr, SStr), AttributesVal(a))
  {
    if a.Some? {
      var m := AttributesVal(a).m;
      assert m.Keys == set k | k in a.value :: VStr(k);
      VStrCount(a.value.Keys);
      assert m.Keys == set k | k in a.value.Keys :: VStr(k);
      assert |m| == |m.Keys| && |a.value| == |a.value.Keys|;
    }
  }

  lemma {:induction false} VStrCount(keys: set<Bytes>)
    ensures |set k | k in keys :: VStr(k)| == |keys|
  {
    if keys != {} {
      var x :| x in keys;
      VStrCount(keys - {x});
      assert (set k | k in keys :: VStr(k)) == (set k | k in keys - {x} :: VStr(k)) + {VStr(x)};
    }
  }

  /** No condition can tell a nil map of subject attributes from an empty one. */
  ghost predicate NilBlind(policies: seq<Policy>)
  {
    forall p <- policies :: p.condition.Some? ==> forall r :: p.condition.value(r) == p.condition.value(Arrived(r))
  }

  lemma DefaultPoliciesNilBlind()
    ensures NilBlind(DefaultPolicies())
  {}

  lemma {:induction false} ArrivedEvaluatesTheSame(req: Request, policies: seq<Policy>)
    requires NilBlind(policies)
    ensures Evaluate(Arrived(req), policies) == Evaluate(req, policies)
  {
    if policies != [] {
      ArrivedEvaluatesTheSame(req, policies[1..]);
    }
  }

  lemma AttributesArrive(id: int, a: Attributes)
    requires SendableAttributes(a)
    ensures Arrives(Opt(id, TMap(SStr, SStr)), AttributesVal(a), AttributesVal(a))
    ensures Arrives(Req(id, TMap(SStr, SStr)), AttributesVal(a), AttributesVal(if a.None? then Some(map[]) else a))
  {
    AttributesTyped(a);
    assert AttributesVal(Some(map[])) == VMap(map[]);
  }

  /** Nil subject attributes arrive as the empty map. */
  lemma SubjectArrives(s: Subject)
    requires Fits(s.userId, 8) && |s.username| < MAX_SIZE && |s.role| < MAX_SIZE && SendableAttributes(s.attributes)
    ensures Arrives(Req(2, TStruct(SUBJECT)), VStruct(SubjectVal(s)), VStruct(SubjectVal(ArrivedSubject(s))))
  {
    hide SUBJECT, Ids, SendableAttributes, AttributesVal, Arrives, ValidSchema, Fits;
    SubjectIds();
    NumbersArrive(1, s.userId);
    StringArrives(2, s.username);
    StringArrives(3, s.role);
    AttributesArrive(4, s.attributes);
    StatsSchemasValid();
    assert AllArrive(SUBJECT, SubjectVal(s), SubjectVal(ArrivedSubject(s)));
    StructArrives(Req(2, TStruct(SUBJECT)), SUBJECT, SubjectVal(s), SubjectVal(ArrivedSubject(s)));
  }

  lemma RequestFieldsArrive(r: Request)
    requires SendableRequest(r)
    ensures AllArrive(AUTHORIZE_REQUEST, RequestVal(r), RequestVal(Arrived(r)))
  {
    hide SendableAttributes, AttributesVal, SubjectVal, GATEWAY, BASE, SUBJECT, AUTHORIZE_REQUEST, Ids, Arrives,
      ArrivedSubject;
    AuthorizeRequestIds();
    GatewayArrives(1);
    SubjectArrives(r.subject);
    StringArrives(3, r.resource);
    StringArrives(4, r.action);
    AttributesArrive(5, r.resourceAttributes);
    AttributesArrive(6, r.context);
  }

  lemma RequestValBack(r: Request)
    ensures IsRequest(RequestVal(r)) && RequestOf(RequestVal(r)) == r
  {
    hide GATEWAY, AttributesVal, IsAttributes, AttributesOf;
    AttributesBack(r.subject.attributes);
    AttributesBack(r.resourceAttributes);
    AttributesBack(r.context);
  }

  /** The numbers of the request's fields. */
  lemma RequestFieldsAre(r: Request)
    ensures var f := RequestVal(r);
      && 2 in f && 3 in f && 4 in f && 5 in f && 6 in f && f[2].VStruct? && {1, 2, 3, 4} <= f[2].f.Keys
      && f[2].f[1] == VInt(r.subject.userId) && f[2].f[2] == VStr(r.subject.username)
      && f[2].f[3] == VStr(r.subject.role) && f[2].f[4] == AttributesVal(r.subject.attributes)
      && f[3] == VStr(r.resource) && f[4] == VStr(r.action)
      && f[5] == AttributesVal(r.resourceAttributes) && f[6] == AttributesVal(r.context)
  {}

  lemma ArrivedKeeps(r: Request)
    ensures Arrived(r).resource == r.resource && Arrived(r).action == r.action
    ensures Arrived(r).subject.userId == r.subject.userId && Arrived(r).subject.role == r.subject.role
    ensures Arrived(r).subject.username == r.subject.username
  {}

  lemma DecisionFieldsArrive(d: Decision)
    requires |d.reason| < MAX_SIZE && |d.matchedPolicy| < MAX_SIZE
    ensures AllArrive(AUTHORIZE_RESPONSE, DecisionVal(d), DecisionVal(d))
  {
    hide OK_RESP, BASE_RESP, AUTHORIZE_RESPONSE, Ids, Arrives, HasType, Normal;
    AuthorizeResponseIds();
    FlagArrives(1, d.allowed);
    StringArrives(2, d.reason);
    StringArrives(3, d.matchedPolicy);
    ErrRespTyped(Other([]));
    ValueArrives(Req(255, TStruct(BASE_RESP)), OK_RESP);
  }

  /** The server's side of the call: what it answers to the bytes it receives. */
  function Serve(s: Bytes, policies: seq<Policy>): Option<map<int, Val>>
  {
    var got := ReadStruct(AUTHORIZE_REQUEST, Zero(AUTHORIZE_REQUEST), s);
    if got.Ok? && IsRequest(got.value) then Some(DecisionVal(Evaluate(RequestOf(got.value), policies))) else None
  }

  /** The gateway's side: the decision it takes from the bytes of the answer. */
  function Received(s: Bytes): Option<Decision>
  {
    var got := ReadStruct(AUTHORIZE_RESPONSE, Zero(AUTHORIZE_RESPONSE), s);
    if got.Ok? && {1, 2, 3, 255} <= got.value.Keys && IsBaseResp(got.value[255]) && RpcErr(got.value[255]) == None &&
       got.value[1].VBool? && got.value[2].VStr? && got.value[3].VStr?
    then Some(DecisionOf(got.value)) else None
  }

  /** What reaches the server is the request, its nil required map made empty. */
  lemma {:induction false} RequestArrives(r: Request, w: Tree, tail: Bytes)
    requires SendableRequest(r) && HasType(TStruct(AUTHORIZE_REQUEST), VStruct(RequestVal(r)))
    requires Writes(TStruct(AUTHORIZE_REQUEST), VStruct(RequestVal(r)), w)
    ensures var got := ReadStruct(AUTHORIZE_REQUEST, Zero(AUTHORIZE_REQUEST), Print(w) + tail);
      && got.Ok? && IsRequest(got.value) && RequestOf(got.value) == Arrived(r)
      && got.value[2].f[1] == VInt(r.subject.userId) && got.value[2].f[2] == VStr(r.subject.username)
      && got.value[2].f[3] == VStr(r.subject.role) && got.value[3] == VStr(r.resource) && got.value[4] == VStr(r.action)
  {
    hide ReadStruct, Writes, Print, Length, HasType, Zero, AllArrive, RequestVal, IsRequest, RequestOf, ValidSchema;
    RequestSchemasValid();
    RequestFieldsArrive(r);
    MessageArrives(AUTHORIZE_REQUEST, RequestVal(r), RequestVal(Arrived(r)), w, tail);
    RequestValBack(Arrived(r));
    RequestFieldsAre(Arrived(r));
    ArrivedKeeps(r);
  }

  lemma {:induction false} DecisionArrives(d: Decision, w: Tree, tail: Bytes)
    requires |d.reason| < MAX_SIZE && |d.matchedPolicy| < MAX_SIZE
    requires HasType(TStruct(AUTHORIZE_RESPONSE), VStruct(DecisionVal(d)))
    requires Writes(TStruct(AUTHORIZE_RESPONSE), VStruct(DecisionVal(d)), w)
    ensures Received(Print(w) + tail) == Some(d)
  {
    hide ReadStruct, Writes, Print, Length, HasType, Zero, AllArrive, ValidSchema;
    ResponseSchemasValid();
    DecisionFieldsArrive(d);
    MessageArrives(AUTHORIZE_RESPONSE, DecisionVal(d), DecisionVal(d), w, tail);
  }

  /** Asking over the wire gives the decision Evaluate gives in process, whatever the map orders and trailing bytes. */
  lemma {:induction false} AuthorizeOverWire(
    r: Request, policies: seq<Policy>, w: Tree, tail: Bytes, w': Tree, tail': Bytes)
    requires SendableRequest(r) && NilBlind(policies) && forall p <- policies :: |Outcome(p).reason| < MAX_SIZE
    requires HasType(TStruct(AUTHORIZE_REQUEST), VStruct(RequestVal(r)))
    requires Writes(TStruct(AUTHORIZE_REQUEST), VStruct(RequestVal(r)), w)
    ensures var d := Evaluate(r, policies);
      && Serve(Print(w) + tail, policies) == Some(DecisionVal(d))
      && HasType(TStruct(AUTHORIZE_RESPONSE), VStruct(DecisionVal(d)))
      && (Writes(TStruct(AUTHORIZE_RESPONSE), VStruct(DecisionVal(d)), w') ==> Received(Print(w') + tail') == Some(d))
  {
    hide ReadStruct, Writes, Print, HasType, RequestVal, RequestOf, IsRequest, DecisionVal, Received, Evaluate, Zero;
    RequestArrives(r, w, tail);
    ArrivedEvaluatesTheSame(r, policies);
    var d := Evaluate(r, policies);
    DecisionFits(r, policies);
    DecisionFieldsArrive(d);
    AllTyped(AUTHORIZE_RESPONSE, DecisionVal(d), DecisionVal(d));
    if Writes(TStruct(AUTHORIZE_RESPONSE), VStruct(DecisionVal(d)), w') {
      DecisionArrives(d, w', tail');
    }
  }

  lemma {:induction false} DecisionFits(r: Request, policies: seq<Policy>)
    requires forall p <- policies :: |Outcome(p).reason| < MAX_SIZE
    ensures |Evaluate(r, policies).reason| < MAX_SIZE && |Evaluate(r, policies).matchedPolicy| < MAX_SIZE
  {
    if policies != [] {
      DecisionFits(r, policies[1..]);
    }
  }
}
