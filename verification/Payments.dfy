/**
 The state of a group-gift payment, worked out twice: by a function of the row in memory, and by
 filters the database applies. A row is a document as stored, where a field may be missing or null.
 */
module Payments {
  import opened Texts

  datatype Bson = Missing | Null | Number(n: real) | Text(s: string) | Date(ms: int)

  /** A stored row; a key not in the map is a missing field. */
  type Doc = map<string, Bson>

  function Get(d: Doc, field: string): Bson {
    if field in d then d[field] else Missing
  }

  datatype State = Disputed | Awaiting | NotReceived | Refunded | Partial | Received

  datatype Kind = Member | HostShare | SettleUp

  const HOST_SHARE_KEY := "host-share"
  const SETTLE := "settle:"

  // ---------------------------------------------------------------------------
  // The classifier
  // ---------------------------------------------------------------------------

  predicate IsDisputed(d: Doc) {
    var disputed, reviewed := Get(d, "disputedAt"), Get(d, "reviewedAt");
    disputed.Date? && Get(d, "status") != Text("refunded") && (reviewed.Date? ==> disputed.ms > reviewed.ms)
  }

  function StateOf(d: Doc): State {
    if IsDisputed(d) then Disputed
    else if Get(d, "status") == Text("pledged") then Awaiting
    else if Get(d, "status") == Text("not_received") then NotReceived
    else if Get(d, "status") == Text("refunded") then Refunded
    else
      var claimed, received := Get(d, "claimedMinor"), Get(d, "amountMinor");
      if claimed.Number? && received.Number? && received.n < claimed.n then Partial else Received
  }

  function KindOf(d: Doc): Kind {
    var key := if Get(d, "idempotencyKey").Text? then Get(d, "idempotencyKey").s else "";
    if key == HOST_SHARE_KEY then HostShare else if SETTLE <= key then SettleUp else Member
  }

  // ---------------------------------------------------------------------------
  // The filters, and how the database reads them
  // ---------------------------------------------------------------------------

  datatype Expr =
    | Nullish(field: string)
    | Greater(left: string, right: string)
    | Less(left: string, right: string)
    | Not(inner: Expr)
    | Both(a: Expr, b: Expr)
    | Either(a: Expr, b: Expr)

  datatype Clause =
    | Is(field: string, value: string)
    | IsNot(field: string, value: string)
    | StartsWith(field: string, prefix: string)
    | NotStartsWith(field: string, prefix: string)
    | Where(expr: Expr)

  /** The database's order of types: a missing field before null, then numbers, text and dates. */
  function Rank(b: Bson): nat {
    match b case Missing => 0 case Null => 1 case Number(_) => 2 case Text(_) => 3 case Date(_) => 4
  }

  predicate Before(a: Bson, b: Bson) {
    Rank(a) < Rank(b) ||
    match (a, b)
    case (Number(m), Number(n)) => m < n
    case (Text(s), Text(t)) => !AtMost(t, s)
    case (Date(s), Date(t)) => s < t
    case _ => false
  }

  predicate Holds(e: Expr, d: Doc) {
    match e
    case Nullish(field) => Get(d, field) in {Missing, Null}
    case Greater(left, right) => Before(Get(d, right), Get(d, left))
    case Less(left, right) => Before(Get(d, left), Get(d, right))
    case Not(inner) => !Holds(inner, d)
    case Both(a, b) => Holds(a, d) && Holds(b, d)
    case Either(a, b) => Holds(a, d) || Holds(b, d)
  }

  predicate Meets(c: Clause, d: Doc) {
    match c
    case Is(field, value) => Get(d, field) == Text(value)
    case IsNot(field, value) => Get(d, field) != Text(value)
    case StartsWith(field, prefix) => Get(d, field).Text? && prefix <= Get(d, field).s
    case NotStartsWith(field, prefix) => !(Get(d, field).Text? && prefix <= Get(d, field).s)
    case Where(expr) => Holds(expr, d)
  }

  predicate Matches(filter: seq<Clause>, d: Doc) {
    forall i :: 0 <= i < |filter| ==> Meets(filter[i], d)
  }

  const DISPUTED := Both(Not(Nullish("disputedAt")), Either(Nullish("reviewedAt"), Greater("disputedAt", "reviewedAt")))
  const SHORT := Both(Not(Nullish("claimedMinor")), Less("amountMinor", "claimedMinor"))

  function StateFilter(state: State): seq<Clause> {
    match state
    case Disputed => [IsNot("status", "refunded"), Where(DISPUTED)]
    case Awaiting => [Is("status", "pledged"), Where(Not(DISPUTED))]
    case NotReceived => [Is("status", "not_received"), Where(Not(DISPUTED))]
    case Refunded => [Is("status", "refunded")]
    case Partial => [Is("status", "confirmed"), Where(Both(Not(DISPUTED), SHORT))]
    case Received => [Is("status", "confirmed"), Where(Both(Not(DISPUTED), Not(SHORT)))]
  }

  function KindFilter(kind: Kind): seq<Clause> {
    match kind
    case HostShare => [Is("idempotencyKey", HOST_SHARE_KEY)]
    case SettleUp => [StartsWith("idempotencyKey", SETTLE)]
    case Member => [IsNot("idempotencyKey", HOST_SHARE_KEY), NotStartsWith("idempotencyKey", SETTLE)]
  }

  // ---------------------------------------------------------------------------
  // The two agree
  // ---------------------------------------------------------------------------

  /** What the schema keeps of the fields that may be null. */
  predicate Typed(d: Doc) {
    && (Get(d, "disputedAt").Date? || Get(d, "disputedAt") in {Missing, Null})
    && (Get(d, "reviewedAt").Date? || Get(d, "reviewedAt") in {Missing, Null})
    && (Get(d, "claimedMinor").Number? || Get(d, "claimedMinor") in {Missing, Null})
    && (Get(d, "amountMinor").Number? || Get(d, "amountMinor") in {Missing, Null})
  }

  predicate KnownStatus(d: Doc) {
    Get(d, "status") in {Text("pledged"), Text("confirmed"), Text("not_received"), Text("refunded")}
  }

  /** The one filter that matches a row is the one of the state it is given. */
  ghost predicate Agree(d: Doc) {
    forall state :: Matches(StateFilter(state), d) <==> state == StateOf(d)
  }

  lemma TwoClauses(a: Clause, b: Clause, d: Doc)
    ensures Matches([a, b], d) <==> Meets(a, d) && Meets(b, d)
  {
    assert [a, b][0] == a && [a, b][1] == b;
  }

  lemma OneClause(a: Clause, d: Doc)
    ensures Matches([a], d) <==> Meets(a, d)
  {
    assert [a][0] == a;
  }

  lemma DisputedMeansDisputed(d: Doc)
    requires Typed(d) && Get(d, "status") != Text("refunded")
    ensures Holds(DISPUTED, d) <==> IsDisputed(d)
  {
    assert Holds(DISPUTED.a, d) <==> !Holds(Nullish("disputedAt"), d);
    assert Holds(DISPUTED.b, d) <==> Holds(Nullish("reviewedAt"), d) || Holds(Greater("disputedAt", "reviewedAt"), d);
  }

  /** A row whose claim is a number and whose amount is not one: null and missing sort before it. */
  predicate AmountLost(d: Doc) {
    Get(d, "claimedMinor").Number? && !Get(d, "amountMinor").Number?
  }

  lemma ShortMeansShort(d: Doc)
    requires Typed(d)
    ensures Holds(SHORT, d) <==>
              AmountLost(d) || (Get(d, "claimedMinor").Number? && Get(d, "amountMinor").n < Get(d, "claimedMinor").n)
  {
    assert Holds(SHORT.a, d) <==> !Holds(Nullish("claimedMinor"), d);
  }

  lemma ConfirmedMeans(d: Doc, short: Expr)
    ensures Holds(Both(Not(DISPUTED), short), d) <==> !Holds(DISPUTED, d) && Holds(short, d)
    ensures Holds(Not(short), d) <==> !Holds(short, d)
  {
  }

  /** What each filter comes to. */
  lemma FilterMeaning(d: Doc, state: State)
    requires Typed(d)
    ensures Matches(StateFilter(state), d) <==>
              match state
              case Disputed => Get(d, "status") != Text("refunded") && IsDisputed(d)
              case Awaiting => Get(d, "status") == Text("pledged") && !IsDisputed(d)
              case NotReceived => Get(d, "status") == Text("not_received") && !IsDisputed(d)
              case Refunded => Get(d, "status") == Text("refunded")
              case Partial => Get(d, "status") == Text("confirmed") && !IsDisputed(d) && Holds(SHORT, d)
              case Received => Get(d, "status") == Text("confirmed") && !IsDisputed(d) && !Holds(SHORT, d)
  {
    var filter := StateFilter(state);
    if state.Refunded? {
      OneClause(filter[0], d);
    } else {
      TwoClauses(filter[0], filter[1], d);
      ConfirmedMeans(d, SHORT);
      ConfirmedMeans(d, Not(SHORT));
      ConfirmedMeans(d, DISPUTED);
      if Get(d, "status") != Text("refunded") {
        DisputedMeansDisputed(d);
      }
    }
  }

  /**
   The filters and the function agree on a row just if it is disputed, or its status is one of the four
   and, when that is `confirmed`, its amount is not lost beside a claim.
   */
  lemma FiltersAgree(d: Doc)
    requires Typed(d)
    ensures Agree(d) <==> IsDisputed(d) || (KnownStatus(d) && (Get(d, "status") == Text("confirmed") ==> !AmountLost(d)))
  {
    ShortMeansShort(d);
    FilterMeaning(d, Disputed);
    FilterMeaning(d, Awaiting);
    FilterMeaning(d, NotReceived);
    FilterMeaning(d, Refunded);
    FilterMeaning(d, Partial);
    FilterMeaning(d, Received);
    assert Agree(d) ==> (Matches(StateFilter(StateOf(d)), d));
  }

  /** A confirmed row whose amount is missing beside a claim: received to the function, partial to the filters. */
  lemma ReceivedOrPartial()
    ensures var d: Doc := map["status" := Text("confirmed"), "claimedMinor" := Number(5.0)];
            StateOf(d) == Received && Matches(StateFilter(Partial), d) && !Matches(StateFilter(Received), d)
  {
    var d: Doc := map["status" := Text("confirmed"), "claimedMinor" := Number(5.0)];
    FilterMeaning(d, Partial);
    FilterMeaning(d, Received);
  }

  /** No row is in two states, whatever its status and amount. */
  lemma AtMostOneState(d: Doc, s: State, t: State)
    requires Typed(d) && Matches(StateFilter(s), d) && Matches(StateFilter(t), d)
    ensures s == t
  {
    FilterMeaning(d, s);
    FilterMeaning(d, t);
  }

  /** Of the three kinds exactly the one a row is given has a filter that matches it. */
  lemma KindsAgree(d: Doc, kind: Kind)
    ensures Matches(KindFilter(kind), d) <==> kind == KindOf(d)
  {
    var filter := KindFilter(kind);
    if kind.Member? {
      TwoClauses(filter[0], filter[1], d);
    } else {
      OneClause(filter[0], d);
    }
    assert HOST_SHARE_KEY[0] != SETTLE[0];
  }
}
