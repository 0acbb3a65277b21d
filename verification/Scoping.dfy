/** Isolation plugins and the exchange listing built under them
    (the scope plugins under src/common/plugins, and src/modules/fuel-exchange/fuel-exchange.service.ts). */
module Scoping {
  import opened Options
  import opened Queries

  datatype Role = SuperAdmin | FuelCompanyAdmin | TransportCompanyAdmin | Client | Driver
  datatype Context = Context(role: Option<Role>, userId: Option<int>, companyId: Option<int>,
                             parentFuelCompanyId: Option<int>)

  /** What a plugin decides about a query: leave it, narrow it, or refuse to run it. */
  datatype Scope = Bypass | Scoped(filter: Filter) | Violation
  datatype Resolution = Unscoped | Resolved(company: int) | Unresolvable

  function Equals(key: string, v: int): Filter { Filter(map[key := Eq(v)]) }

  // ---------- the three plugins ----------

  function TenantScope(ctx: Context): Scope {
    if ctx.role.None? || ctx.role.value.SuperAdmin? then Bypass
    else if ctx.companyId.None? then Violation
    else Scoped(Equals("companyId", ctx.companyId.value))
  }

  function ResolveFuelCompany(ctx: Context): Resolution {
    if ctx.role.None? || ctx.role.value.SuperAdmin? then Unscoped
    else if ctx.role.value.TransportCompanyAdmin? then
      if ctx.parentFuelCompanyId.None? then Unresolvable else Resolved(ctx.parentFuelCompanyId.value)
    else if ctx.parentFuelCompanyId.Some? then Resolved(ctx.parentFuelCompanyId.value)
    else if ctx.companyId.Some? then Resolved(ctx.companyId.value)
    else Unresolvable
  }

  /** The tenant boundary, narrowed further to one party. */
  function Narrowed(fuelCompany: int, key: string, v: int): Filter {
    Filter(map["fuelCompanyId" := Eq(fuelCompany), key := Eq(v)])
  }

  function MultiPartyScope(ctx: Context): Scope {
    match ResolveFuelCompany(ctx)
    case Unscoped => Bypass
    case Unresolvable => Violation
    case Resolved(fuelCompany) =>
      if ctx.userId.None? || ctx.role.None? then Violation
      else match ctx.role.value
           case FuelCompanyAdmin => Scoped(Equals("fuelCompanyId", fuelCompany))
           case TransportCompanyAdmin =>
             if ctx.companyId.None? then Violation
             else Scoped(Narrowed(fuelCompany, "transportCompanyId", ctx.companyId.value))
           case Client => Scoped(Narrowed(fuelCompany, "clientId", ctx.userId.value))
           case Driver => Scoped(Narrowed(fuelCompany, "driverId", ctx.userId.value))
           case SuperAdmin => Violation
  }

  function PartyFilter(acting: int): Filter { Or([Equals("partyCompanyIds", acting), Equals("openToMarket", 1)]) }

  function PartySetScope(ctx: Context): Scope {
    if ctx.role.None? || ctx.role.value.SuperAdmin? then Bypass
    else if !ctx.role.value.FuelCompanyAdmin? || ctx.companyId.None? then Violation
    else Scoped(PartyFilter(ctx.companyId.value))
  }

  /** The pre-hook: what the database is asked once the plugin has run; nothing if it threw. */
  function Hooked(q: Filter, scope: Scope): Option<Filter> {
    match scope
    case Bypass => Some(q)
    case Scoped(f) => Some(Where(q, f))
    case Violation => None
  }

  /** Whether a query by this actor, through this plugin, returns the document. */
  ghost predicate Returns(q: Filter, scope: Scope, d: Doc) {
    Hooked(q, scope).Some? && Matches(Hooked(q, scope).value, d)
  }

  /** Only an absent actor and the platform operator go unscoped, in every plugin. */
  lemma OnlyOperatorsBypass(ctx: Context)
    ensures var privileged := ctx.role.None? || ctx.role.value.SuperAdmin?;
      && (TenantScope(ctx).Bypass? <==> privileged)
      && (MultiPartyScope(ctx).Bypass? <==> privileged)
      && (PartySetScope(ctx).Bypass? <==> privileged)
  {
  }

  /** Every other actor's result stays inside its tenant, whatever filter it smuggles in. */
  lemma ResultsStayInTenant(q: Filter, ctx: Context, d: Doc)
    requires ctx.role.Some? && !ctx.role.value.SuperAdmin?
    ensures Returns(q, TenantScope(ctx), d) ==> ctx.companyId.Some? && HasValue(d, "companyId", ctx.companyId.value)
    ensures Returns(q, MultiPartyScope(ctx), d) ==>
      ResolveFuelCompany(ctx).Resolved? && HasValue(d, "fuelCompanyId", ResolveFuelCompany(ctx).company)
    ensures Returns(q, MultiPartyScope(ctx), d) && ctx.role.value.TransportCompanyAdmin? ==>
      ctx.companyId.Some? && HasValue(d, "transportCompanyId", ctx.companyId.value)
    ensures Returns(q, MultiPartyScope(ctx), d) && ctx.role.value.Client?
        ==> ctx.userId.Some? && HasValue(d, "clientId", ctx.userId.value)
    ensures Returns(q, MultiPartyScope(ctx), d) && ctx.role.value.Driver?
        ==> ctx.userId.Some? && HasValue(d, "driverId", ctx.userId.value)
  {
    if Returns(q, TenantScope(ctx), d) { InScope(q, TenantScope(ctx).filter, d, "companyId"); }
    if Returns(q, MultiPartyScope(ctx), d) {
      var fuelCompany := ResolveFuelCompany(ctx).company;
      match ctx.role.value {
        case FuelCompanyAdmin => InScope(q, Equals("fuelCompanyId", fuelCompany), d, "fuelCompanyId");
        case TransportCompanyAdmin => InNarrowedScope(q, fuelCompany, "transportCompanyId", ctx.companyId.value, d);
        case Client => InNarrowedScope(q, fuelCompany, "clientId", ctx.userId.value, d);
        case Driver => InNarrowedScope(q, fuelCompany, "driverId", ctx.userId.value, d);
      }
    }
  }

  /** Which fuel company an actor's documents belong to: a transporter's parent; anyone else's parent if
      it has one, and its own company if not; and nobody else is left unscoped or refused. */
  lemma FuelCompanyIs(ctx: Context)
    ensures var privileged := ctx.role.None? || ctx.role.value.SuperAdmin?;
            var transporter := ctx.role.Some? && ctx.role.value.TransportCompanyAdmin?;
            var r := ResolveFuelCompany(ctx);
      && (r.Unscoped? <==> privileged)
      && (r.Resolved? && ctx.parentFuelCompanyId.Some? ==> r.company == ctx.parentFuelCompanyId.value)
      && (r.Resolved? && ctx.parentFuelCompanyId.None? ==> !transporter && Some(r.company) == ctx.companyId)
      && (r.Unresolvable? <==>
            !privileged && ctx.parentFuelCompanyId.None? && (transporter || ctx.companyId.None?))
  {
  }

  /** The one field besides the tenant that narrows a role to its own documents, and its value. */
  function OwnField(ctx: Context): Option<(string, Option<int>)> {
    match ctx.role
    case Some(TransportCompanyAdmin) => Some(("transportCompanyId", ctx.companyId))
    case Some(Client) => Some(("clientId", ctx.userId))
    case Some(Driver) => Some(("driverId", ctx.userId))
    case _ => None
  }

  /** For a filter that names neither field, a non-operator gets exactly the documents it asks for that
      carry its tenant and, where its role is narrowed, its own value: no more, and no fewer. */
  lemma MultiPartyReturnsExactly(q: Filter, ctx: Context, d: Doc)
    requires ctx.role.Some? && !ctx.role.value.SuperAdmin?
    requires "fuelCompanyId" !in q.top && (OwnField(ctx).Some? ==> OwnField(ctx).value.0 !in q.top)
    ensures Returns(q, MultiPartyScope(ctx), d) <==>
      && ResolveFuelCompany(ctx).Resolved? && ctx.userId.Some?
      && Matches(q, d) && HasValue(d, "fuelCompanyId", ResolveFuelCompany(ctx).company)
      && (OwnField(ctx).Some? ==>
            OwnField(ctx).value.1.Some? && HasValue(d, OwnField(ctx).value.0, OwnField(ctx).value.1.value))
  {
    match MultiPartyScope(ctx) {
      case Scoped(f) =>
        DisjointWhereIsConjunction(q, f, d);
        var fuelCompany := ResolveFuelCompany(ctx).company;
        match OwnField(ctx) {
          case None => EqualsMeans("fuelCompanyId", fuelCompany, d);
          case Some((key, v)) => NarrowedMeans(fuelCompany, key, v.value, d);
        }
      case _ =>
    }
  }

  lemma NarrowedMeans(fuelCompany: int, key: string, v: int, d: Doc)
    requires |key| != |"fuelCompanyId"|
    ensures Matches(Narrowed(fuelCompany, key, v), d) <==>
      HasValue(d, "fuelCompanyId", fuelCompany) && HasValue(d, key, v)
  {
    TwoConditions("fuelCompanyId", Eq(fuelCompany), key, Eq(v), d);
  }

  /** The same for the tenant plugin. */
  lemma TenantReturnsExactly(q: Filter, ctx: Context, d: Doc)
    requires ctx.role.Some? && !ctx.role.value.SuperAdmin? && "companyId" !in q.top
    ensures Returns(q, TenantScope(ctx), d) <==>
      ctx.companyId.Some? && Matches(q, d) && HasValue(d, "companyId", ctx.companyId.value)
  {
    if ctx.companyId.Some? {
      DisjointWhereIsConjunction(q, Equals("companyId", ctx.companyId.value), d);
      EqualsMeans("companyId", ctx.companyId.value, d);
    }
  }

  /** A company that is party to the document, or one reading an offer put to the whole market. */
  ghost predicate PartyOrMarket(ctx: Context, d: Doc) {
    && ctx.role == Some(FuelCompanyAdmin) && ctx.companyId.Some?
    && (HasValue(d, "partyCompanyIds", ctx.companyId.value) || HasValue(d, "openToMarket", 1))
  }

  /** Through the party-set plugin a non-operator is returned only documents it is party to, or put to the
      whole market, whatever it filters by; and, for a filter with no top-level disjunction, all of those
      that it asks for. */
  lemma PartySetReturnsExactly(q: Filter, ctx: Context, d: Doc)
    requires ctx.role.Some? && !ctx.role.value.SuperAdmin?
    ensures Returns(q, PartySetScope(ctx), d) ==> PartyOrMarket(ctx, d)
    ensures OR !in q.top ==> (Returns(q, PartySetScope(ctx), d) <==> Matches(q, d) && PartyOrMarket(ctx, d))
  {
    if ctx.role == Some(FuelCompanyAdmin) && ctx.companyId.Some? {
      var acting := ctx.companyId.value;
      PartyFilterMeans(acting, d);
      if Returns(q, PartySetScope(ctx), d) { ScopeAlwaysHolds(q, PartyFilter(acting), d); }
      if OR !in q.top {
        assert PartyFilter(acting).top.Keys == {OR};
        DisjointWhereIsConjunction(q, PartyFilter(acting), d);
      }
    }
  }

  lemma InNarrowedScope(q: Filter, fuelCompany: int, key: string, v: int, d: Doc)
    requires |key| != |"fuelCompanyId"| && Matches(Where(q, Narrowed(fuelCompany, key, v)), d)
    ensures HasValue(d, "fuelCompanyId", fuelCompany) && HasValue(d, key, v)
  {
    InScope(q, Narrowed(fuelCompany, key, v), d, "fuelCompanyId");
    InScope(q, Narrowed(fuelCompany, key, v), d, key);
  }

  lemma InScope(q: Filter, scope: Filter, d: Doc, key: string)
    requires Matches(Where(q, scope), d) && key in scope.top
    ensures Holds(scope.top[key], key, d)
  {
    ScopeAlwaysHolds(q, scope, d);
  }

  lemma PartyFilterMeans(acting: int, d: Doc)
    ensures Matches(PartyFilter(acting), d)
        <==> HasValue(d, "partyCompanyIds", acting) || HasValue(d, "openToMarket", 1)
  {
    var parts := [Equals("partyCompanyIds", acting), Equals("openToMarket", 1)];
    OrMatches(parts, d);
    EqualsMeans("partyCompanyIds", acting, d);
    EqualsMeans("openToMarket", 1, d);
    assert parts[0] in parts && parts[1] in parts;
  }

  lemma EqualsMeans(key: string, v: int, d: Doc)
    ensures Matches(Equals(key, v), d) <==> HasValue(d, key, v)
  {
    assert key in Equals(key, v).top;
    if Matches(Equals(key, v), d) { assert Holds(Equals(key, v).top[key], key, d); }
  }

  // ---------- saving a party-set document ----------

  predicate PartiesValid(openToMarket: bool, parties: seq<int>, acting: int) {
    if openToMarket then parties == [acting] else |parties| == 2 && acting in parties
  }

  function Saved(openToMarket: bool, parties: seq<int>): Doc {
    map["partyCompanyIds" := Many(set p <- parties), "openToMarket" := One(if openToMarket then 1 else 0)]
  }

  /** The save hook lets a new document through exactly when the acting company is among its parties and
      there is one party for a market offer, two otherwise. */
  lemma PartiesValidExactlyWhen(openToMarket: bool, parties: seq<int>, acting: int)
    ensures PartiesValid(openToMarket, parties, acting) <==>
      acting in parties && |parties| == (if openToMarket then 1 else 2)
  {
  }

  /** A company can read back every offer the save hook let it create; a company that is not a party
      can read it exactly when it is open to the market. */
  lemma SavedOfferIsReadable(openToMarket: bool, parties: seq<int>, acting: int, reader: int)
    requires PartiesValid(openToMarket, parties, acting)
    ensures Matches(PartyFilter(acting), Saved(openToMarket, parties))
    ensures reader !in parties ==> (Matches(PartyFilter(reader), Saved(openToMarket, parties)) <==> openToMarket)
  {
    PartyFilterMeans(acting, Saved(openToMarket, parties));
    PartyFilterMeans(reader, Saved(openToMarket, parties));
  }

  // ---------- the exchange listing ----------

  datatype Direction = Incoming | Outgoing | All
  const OPEN := 0

  /** The viewer: who is asking, which raisers are suspended, which grades it sells. */
  datatype Viewer = Viewer(company: int, suspended: set<int>, soldGrades: set<int>)

  function RelevantGrades(v: Viewer): Filter {
    Or([Equals("openToMarket", 0), Filter(map["openToMarket" := Eq(1), "fuelType" := In(v.soldGrades)])])
  }

  function IncomingFilter(v: Viewer): Filter {
    Filter(map["raisedByCompanyId" := Nin(v.suspended + {v.company}), AND := AllOf([RelevantGrades(v)])])
  }

  function OutgoingFilter(v: Viewer): Filter { Equals("raisedByCompanyId", v.company) }

  function Listing(v: Viewer, direction: Direction, state: Option<int>): Filter {
    var base := match direction
                case Outgoing => OutgoingFilter(v)
                case Incoming => IncomingFilter(v)
                case All => And([Or([OutgoingFilter(v), IncomingFilter(v)])]);
    var effective := if direction.Incoming? && state.None? then Some(OPEN) else state;
    if effective.Some? then And([base, Equals("state", effective.value)]) else base
  }

  function IncomingAwaitingAnswer(v: Viewer, answered: set<int>): Filter {
    Filter(IncomingFilter(v).top + map["state" := Eq(OPEN), "_id" := Nin(answered)])
  }

  function OutgoingOpen(v: Viewer): Filter { Filter(map["raisedByCompanyId" := Eq(v.company), "state" := Eq(OPEN)]) }

  function AwardedThisMonth(v: Viewer, awarded: int, monthStart: int, monthEnd: int): Filter {
    Filter(map[AND := AllOf([Or([Equals("raisedByCompanyId", v.company), Equals("awardedCompanyId", v.company)])]),
               "state" := Eq(awarded), "resolvedAt" := Range(monthStart, monthEnd)])
  }

  /** The viewer is this actor, an administrator of a fuel company. */
  predicate IsViewer(ctx: Context, v: Viewer) { ctx.role == Some(FuelCompanyAdmin) && ctx.companyId == Some(v.company) }

  /** No listing or summary filter, with or without a cursor, has a key the party-set plugin would
      replace; so the scoped query asks for exactly the caller's filter and the scope. */
  lemma ExchangeFiltersSurviveScoping(ctx: Context, v: Viewer, direction: Direction, state: Option<int>,
                                      keyset: Option<Filter>, answered: set<int>, awarded: int, from: int, to: int,
                                      d: Doc)
    requires IsViewer(ctx, v)
    ensures forall q <- {WithCursor(Listing(v, direction, state), keyset), IncomingAwaitingAnswer(v, answered),
                         OutgoingOpen(v), AwardedThisMonth(v, awarded, from, to)} ::
      Returns(q, PartySetScope(ctx), d) <==> Matches(q, d) && PartyOrMarket(ctx, d)
  {
    forall q <- {WithCursor(Listing(v, direction, state), keyset), IncomingAwaitingAnswer(v, answered),
                 OutgoingOpen(v), AwardedThisMonth(v, awarded, from, to)}
      ensures Returns(q, PartySetScope(ctx), d) <==> Matches(q, d) && PartyOrMarket(ctx, d)
    {
      assert OR !in q.top;
      PartySetReturnsExactly(q, ctx, d);
    }
  }

  /** The shape to avoid: a bare top-level `$or` is discarded whole by the scope, so the viewer is returned
      every document it may see, whatever it asked for. */
  lemma BareDisjunctionIsDiscarded(fs: seq<Filter>, ctx: Context, v: Viewer, d: Doc)
    requires IsViewer(ctx, v)
    ensures Returns(Or(fs), PartySetScope(ctx), d) <==> PartyOrMarket(ctx, d)
  {
    assert Where(Or(fs), PartyFilter(v.company)) == PartyFilter(v.company);
    PartyFilterMeans(v.company, d);
  }

  // ---------- what each filter asks for ----------

  /** An offer addressed to the viewer, or one to the whole market of a grade it sells. */
  ghost predicate Relevant(v: Viewer, d: Doc) {
    || HasValue(d, "openToMarket", 0)
    || (HasValue(d, "openToMarket", 1) && exists g <- v.soldGrades :: HasValue(d, "fuelType", g))
  }

  /** It was raised neither by the viewer nor by a suspended company. */
  ghost predicate RaisedByAnother(v: Viewer, d: Doc) {
    !HasValue(d, "raisedByCompanyId", v.company) && forall c <- v.suspended :: !HasValue(d, "raisedByCompanyId", c)
  }

  lemma RelevantGradesMean(v: Viewer, d: Doc)
    ensures Matches(RelevantGrades(v), d) <==> Relevant(v, d)
  {
    var market := Filter(map["openToMarket" := Eq(1), "fuelType" := In(v.soldGrades)]);
    var parts := [Equals("openToMarket", 0), market];
    EqualsMeans("openToMarket", 0, d);
    OrMatches(parts, d);
    assert parts[0] in parts && parts[1] in parts;
    if Matches(market, d) {
      assert Holds(market.top["openToMarket"], "openToMarket", d);
      assert Holds(market.top["fuelType"], "fuelType", d);
    }
  }

  lemma IncomingMeans(v: Viewer, d: Doc)
    ensures Matches(IncomingFilter(v), d) <==> RaisedByAnother(v, d) && Relevant(v, d)
  {
    var f := IncomingFilter(v);
    RelevantGradesMean(v, d);
    AndMatches([RelevantGrades(v)], d);
    assert [RelevantGrades(v)][0] in [RelevantGrades(v)];
    assert Matches(And([RelevantGrades(v)]), d) <==> Holds(f.top[AND], AND, d) by { AndHolds([RelevantGrades(v)], d); }
    if Matches(f, d) { assert Holds(f.top["raisedByCompanyId"], "raisedByCompanyId", d) && Holds(f.top[AND], AND, d); }
  }

  lemma AndHolds(fs: seq<Filter>, d: Doc)
    ensures Matches(And(fs), d) <==> Holds(AllOf(fs), AND, d)
  {
    assert AND in And(fs).top;
  }

  /** The summary counts as awaiting an answer exactly the offers the "incoming" listing shows by default
      that the viewer has not answered. */
  lemma AwaitingMeans(v: Viewer, answered: set<int>, d: Doc)
    ensures Matches(IncomingAwaitingAnswer(v, answered), d)
       <==> Matches(Listing(v, Incoming, None), d) && forall o <- answered :: !HasValue(d, "_id", o)
  {
    var base, added := IncomingFilter(v), Filter(map["state" := Eq(OPEN), "_id" := Nin(answered)]);
    InState(base, OPEN, d);
    assert base.top.Keys !! added.top.Keys by { assert |AND| == 4 && "_id" != AND; }
    DisjointWhereIsConjunction(base, added, d);
    TwoConditions("state", Eq(OPEN), "_id", Nin(answered), d);
  }

  /** As outgoing and open it counts exactly the viewer's own open offers. */
  lemma OpenOwnMeans(v: Viewer, d: Doc)
    ensures Matches(OutgoingOpen(v), d) <==> HasValue(d, "raisedByCompanyId", v.company) && HasValue(d, "state", OPEN)
    ensures Matches(OutgoingFilter(v), d) <==> HasValue(d, "raisedByCompanyId", v.company)
  {
    assert |"raisedByCompanyId"| != |"state"|;
    TwoConditions("raisedByCompanyId", Eq(v.company), "state", Eq(OPEN), d);
    EqualsMeans("raisedByCompanyId", v.company, d);
  }

  lemma TwoConditions(k1: string, c1: Cond, k2: string, c2: Cond, d: Doc)
    requires k1 != k2
    ensures Matches(Filter(map[k1 := c1, k2 := c2]), d) <==> Holds(c1, k1, d) && Holds(c2, k2, d)
  {
    var f := Filter(map[k1 := c1, k2 := c2]);
    assert k1 in f.top && k2 in f.top;
    if Matches(f, d) { assert Holds(f.top[k1], k1, d) && Holds(f.top[k2], k2, d); }
  }

  lemma ThreeConditions(k1: string, c1: Cond, k2: string, c2: Cond, k3: string, c3: Cond, d: Doc)
    requires k1 != k2 && k1 != k3 && k2 != k3
    ensures Matches(Filter(map[k1 := c1, k2 := c2, k3 := c3]), d) <==>
      Holds(c1, k1, d) && Holds(c2, k2, d) && Holds(c3, k3, d)
  {
    var f := Filter(map[k1 := c1, k2 := c2, k3 := c3]);
    assert k1 in f.top && k2 in f.top && k3 in f.top;
    if Matches(f, d) { assert Holds(f.top[k1], k1, d) && Holds(f.top[k2], k2, d) && Holds(f.top[k3], k3, d); }
  }

  lemma EitherSideMeans(v: Viewer, d: Doc)
    ensures Holds(AllOf([Or([Equals("raisedByCompanyId", v.company), Equals("awardedCompanyId", v.company)])]), AND, d)
       <==> HasValue(d, "raisedByCompanyId", v.company) || HasValue(d, "awardedCompanyId", v.company)
  {
    var sides := [Equals("raisedByCompanyId", v.company), Equals("awardedCompanyId", v.company)];
    EqualsMeans("raisedByCompanyId", v.company, d);
    EqualsMeans("awardedCompanyId", v.company, d);
    OrMatches(sides, d);
    assert sides[0] in sides && sides[1] in sides;
    AndHolds([Or(sides)], d);
    AndMatches([Or(sides)], d);
    assert [Or(sides)][0] in [Or(sides)];
  }

  /** As awarded this month it counts exactly the offers the viewer raised or won that were awarded from the
      month's first moment up to, not including, the next one's. */
  lemma AwardedMeans(v: Viewer, awarded: int, from: int, to: int, d: Doc)
    ensures Matches(AwardedThisMonth(v, awarded, from, to), d) <==>
      && HasValue(d, "state", awarded)
      && (HasValue(d, "raisedByCompanyId", v.company) || HasValue(d, "awardedCompanyId", v.company))
      && "resolvedAt" in d && d["resolvedAt"].One? && from <= d["resolvedAt"].value < to
  {
    var either := AllOf([Or([Equals("raisedByCompanyId", v.company), Equals("awardedCompanyId", v.company)])]);
    assert |AND| < |"state"| < |"resolvedAt"|;
    ThreeConditions(AND, either, "state", Eq(awarded), "resolvedAt", Range(from, to), d);
    EitherSideMeans(v, d);
  }

  /** With a state, each listing asks for exactly the offers of its direction in that state. */
  lemma ListingMeans(v: Viewer, state: int, d: Doc)
    ensures Matches(Listing(v, Outgoing, Some(state)), d)
       <==> HasValue(d, "raisedByCompanyId", v.company) && HasValue(d, "state", state)
    ensures Matches(Listing(v, Incoming, Some(state)), d)
       <==> RaisedByAnother(v, d) && Relevant(v, d) && HasValue(d, "state", state)
    ensures Matches(Listing(v, All, Some(state)), d) <==>
      && (HasValue(d, "raisedByCompanyId", v.company) || (RaisedByAnother(v, d) && Relevant(v, d)))
      && HasValue(d, "state", state)
  {
    OpenOwnMeans(v, d);
    IncomingMeans(v, d);
    InState(OutgoingFilter(v), state, d);
    InState(IncomingFilter(v), state, d);
    EitherMatches(v, d);
    InState(And([Or([OutgoingFilter(v), IncomingFilter(v)])]), state, d);
  }

  lemma InState(base: Filter, state: int, d: Doc)
    ensures Matches(And([base, Equals("state", state)]), d) <==> Matches(base, d) && HasValue(d, "state", state)
  {
    EqualsMeans("state", state, d);
    PairMatches(base, Equals("state", state), d);
  }

  lemma EitherMatches(v: Viewer, d: Doc)
    ensures Matches(And([Or([OutgoingFilter(v), IncomingFilter(v)])]), d)
       <==> Matches(OutgoingFilter(v), d) || Matches(IncomingFilter(v), d)
  {
    var both := [OutgoingFilter(v), IncomingFilter(v)];
    AndMatches([Or(both)], d);
    assert [Or(both)][0] in [Or(both)];
    OrMatches(both, d);
    assert both[0] in both && both[1] in both;
  }

  /** For an explicit state, what the scoped "all" listing returns is the disjoint union of what
      "incoming" and "outgoing" return. */
  lemma AllIsDisjointUnion(ctx: Context, v: Viewer, state: int, d: Doc)
    requires IsViewer(ctx, v)
    ensures var scope := PartySetScope(ctx);
            var inc, out := Returns(Listing(v, Incoming, Some(state)), scope, d),
                Returns(Listing(v, Outgoing, Some(state)), scope, d);
            (Returns(Listing(v, All, Some(state)), scope, d) <==> inc || out) && !(inc && out)
  {
    ListingMeans(v, state, d);
    ScopedListing(ctx, v, Incoming, Some(state), d);
    ScopedListing(ctx, v, Outgoing, Some(state), d);
    ScopedListing(ctx, v, All, Some(state), d);
  }

  lemma ScopedListing(ctx: Context, v: Viewer, direction: Direction, state: Option<int>, d: Doc)
    requires IsViewer(ctx, v)
    ensures Returns(Listing(v, direction, state), PartySetScope(ctx), d)
       <==> Matches(Listing(v, direction, state), d) && PartyOrMarket(ctx, d)
  {
    assert OR !in Listing(v, direction, state).top;
    PartySetReturnsExactly(Listing(v, direction, state), ctx, d);
  }

  /** With no state given, "incoming" means open offers only while "all" means every state, so what
      the scoped "all" returns beyond the other two is exactly the visible, relevant offers of others
      that are no longer open; and it misses nothing they return. */
  lemma AllWithoutStateExceedsUnionBy(ctx: Context, v: Viewer, d: Doc)
    requires IsViewer(ctx, v)
    ensures var scope := PartySetScope(ctx);
            var inc, out := Returns(Listing(v, Incoming, None), scope, d),
                Returns(Listing(v, Outgoing, None), scope, d);
            var all := Returns(Listing(v, All, None), scope, d);
      && (all && !inc && !out <==>
            RaisedByAnother(v, d) && Relevant(v, d) && PartyOrMarket(ctx, d) && !HasValue(d, "state", OPEN))
      && (inc || out ==> all) && !(inc && out)
  {
    EitherMatches(v, d);
    IncomingMeans(v, d);
    OpenOwnMeans(v, d);
    ListingMeans(v, OPEN, d);
    ScopedListing(ctx, v, Incoming, None, d);
    ScopedListing(ctx, v, Outgoing, None, d);
    ScopedListing(ctx, v, All, None, d);
  }

  /** Company 2's offer to the market, of a grade the viewer sells, already awarded. */
  const RESOLVED_OFFER: Doc :=
    map["raisedByCompanyId" := One(2), "partyCompanyIds" := Many({2}), "openToMarket" := One(1),
        "fuelType" := One(5), "state" := One(1)]

  lemma ResolvedOfferFields()
    ensures var d := RESOLVED_OFFER;
      && (forall c: int :: HasValue(d, "raisedByCompanyId", c) <==> c == 2)
      && (forall n: int :: HasValue(d, "openToMarket", n) <==> n == 1)
      && HasValue(d, "fuelType", 5) && !HasValue(d, "state", OPEN)
  {
  }

  /** A document in the excess: company 1 sees it under "all", and under neither of the other two. */
  lemma ResolvedOfferIsOnlyInAll()
    ensures var v := Viewer(1, {}, {5});
            var scope := PartySetScope(Context(Some(FuelCompanyAdmin), None, Some(1), None));
      && Returns(Listing(v, All, None), scope, RESOLVED_OFFER)
      && !Returns(Listing(v, Incoming, None), scope, RESOLVED_OFFER)
      && !Returns(Listing(v, Outgoing, None), scope, RESOLVED_OFFER)
  {
    var v := Viewer(1, {}, {5});
    ResolvedOfferFields();
    assert 5 in v.soldGrades;
    AllWithoutStateExceedsUnionBy(Context(Some(FuelCompanyAdmin), None, Some(1), None), v, RESOLVED_OFFER);
  }
}
