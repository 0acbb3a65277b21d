/** Fuel-exchange offers (src/modules/fuel-exchange/fuel-exchange.service.ts): propose, award and
    withdraw each read first and write later, and any number of requests interleave. Prices are
    halalas per litre. */
module Exchange {
  import opened Options
  import opened Rounding

  type OfferId = nat
  type ProposalId = nat
  type CompanyId = nat
  type RequestId = nat

  datatype OfferState = Open | Awarded | Withdrawn
  datatype Terms = Terms(proposal: ProposalId, company: CompanyId, unitPrice: Option<real>, total: Option<int>,
                         quantity: real)
  datatype Offer = Offer(raisedBy: CompanyId, quantity: real, state: OfferState, agreed: Option<Terms>)

  datatype Outcome = Proposed | Declined | AwardedProposal | NotSelected
  datatype Proposal = Proposal(offer: OfferId, company: CompanyId, unitPrice: Option<real>, outcome: Outcome)

  /** A request that has done its reads and not yet its write. */
  datatype Pending =
    | Proposing(offer: OfferId, company: CompanyId, unitPrice: Option<real>)
    | Awarding(offer: OfferId, terms: Terms)
    | Withdrawing(offer: OfferId)

  datatype Market = Market(offers: map<OfferId, Offer>, proposals: map<ProposalId, Proposal>,
                           pending: map<RequestId, Pending>)

  datatype Event =
    | Raise(o: OfferId, actor: CompanyId, quantity: real)
    | ReadPropose(r: RequestId, o: OfferId, actor: CompanyId, price: Option<real>, decline: bool, raiserActive: bool,
                  sellsGrade: bool)
    | ReadAward(r: RequestId, o: OfferId, actor: CompanyId, proposal: ProposalId)
    | ReadWithdraw(r: RequestId, o: OfferId, actor: CompanyId)
    | Write(r: RequestId, newId: ProposalId)

  /** `roundCurrency(unitPrice * quantity)`; a proposal without a price has no total. */
  function TotalFor(price: Option<real>, quantity: real): Option<int> {
    match price case None => None case Some(p) => Some(RoundedProduct(p, quantity))
  }

  function RoundedProduct(price: real, quantity: real): int { Round(price * quantity) }

  // ---------- reads ----------

  predicate MayPropose(m: Market, o: OfferId, actor: CompanyId, price: Option<real>, decline: bool, raiserActive: bool,
                       sellsGrade: bool) {
    && o in m.offers && m.offers[o].raisedBy != actor && m.offers[o].state.Open? && raiserActive
    && decline != price.Some?
    && (!decline ==> sellsGrade)
  }

  predicate MayAward(m: Market, o: OfferId, actor: CompanyId, p: ProposalId) {
    && o in m.offers && m.offers[o].raisedBy == actor
    && p in m.proposals && m.proposals[p].offer == o && !m.proposals[p].outcome.Declined?
  }

  function ReadTerms(m: Market, o: OfferId, p: ProposalId): Terms
    requires o in m.offers && p in m.proposals
  {
    var proposal, quantity := m.proposals[p], m.offers[o].quantity;
    Terms(p, proposal.company, proposal.unitPrice, TotalFor(proposal.unitPrice, quantity), quantity)
  }

  // ---------- writes ----------

  /** The unique (offer, company) index. */
  predicate Answered(m: Market, o: OfferId, c: CompanyId) {
    exists p <- m.proposals :: m.proposals[p].offer == o && m.proposals[p].company == c
  }

  function WritePropose(m: Market, w: Pending, id: ProposalId): Market
    requires w.Proposing?
  {
    if Answered(m, w.offer, w.company) || id in m.proposals then m
    else
      var outcome := if w.unitPrice.None? then Declined else Proposed;
      m.(proposals := m.proposals[id := Proposal(w.offer, w.company, w.unitPrice, outcome)])
  }

  /** What `award` leaves in the proposals: the winner, and every other answer to the same offer,
      declined ones included, as not selected. */
  function Resolved(proposals: map<ProposalId, Proposal>, o: OfferId, winner: ProposalId): map<ProposalId, Proposal> {
    map p <- proposals ::
      if p == winner then proposals[p].(outcome := AwardedProposal)
      else if proposals[p].offer == o then proposals[p].(outcome := NotSelected)
      else proposals[p]
  }

  predicate StillOpen(m: Market, o: OfferId) { o in m.offers && m.offers[o].state.Open? }

  function WriteAward(m: Market, w: Pending): Market
    requires w.Awarding?
  {
    if !StillOpen(m, w.offer) then m
    else m.(offers := m.offers[w.offer := m.offers[w.offer].(state := Awarded, agreed := Some(w.terms))],
            proposals := Resolved(m.proposals, w.offer, w.terms.proposal))
  }

  function WriteWithdraw(m: Market, w: Pending): Market
    requires w.Withdrawing?
  {
    if !StillOpen(m, w.offer) then m
    else m.(offers := m.offers[w.offer := m.offers[w.offer].(state := Withdrawn)])
  }

  function Remember(m: Market, r: RequestId, w: Pending): Market {
    if r in m.pending then m else m.(pending := m.pending[r := w])
  }

  function Next(m: Market, e: Event): Market {
    match e
    case Raise(o, actor, quantity) =>
      if o in m.offers then m else m.(offers := m.offers[o := Offer(actor, quantity, Open, None)])
    case ReadPropose(r, o, actor, price, decline, raiserActive, sellsGrade) =>
      if MayPropose(m, o, actor, price, decline, raiserActive, sellsGrade)
      then Remember(m, r, Proposing(o, actor, price))
      else m
    case ReadAward(r, o, actor, p) =>
      if MayAward(m, o, actor, p) then Remember(m, r, Awarding(o, ReadTerms(m, o, p))) else m
    case ReadWithdraw(r, o, actor) =>
      if o in m.offers && m.offers[o].raisedBy == actor then Remember(m, r, Withdrawing(o)) else m
    case Write(r, newId) =>
      if r !in m.pending then m
      else
        var w, left := m.pending[r], m.(pending := m.pending - {r});
        match w
        case Proposing(_, _, _) => WritePropose(left, w, newId)
        case Awarding(_, _) => WriteAward(left, w)
        case Withdrawing(_) => WriteWithdraw(left, w)
  }

  function Run(m: Market, events: seq<Event>): Market {
    if events == [] then m else Next(Run(m, events[..|events| - 1]), events[|events| - 1])
  }

  const EMPTY := Market(map[], map[], map[])

  // ---------- the invariant ----------

  ghost predicate ProposalOk(m: Market, p: ProposalId)
    requires p in m.proposals
  {
    var x := m.proposals[p];
    && x.offer in m.offers && x.company != m.offers[x.offer].raisedBy
    && (x.outcome.Proposed? ==> x.unitPrice.Some?)
    && (x.outcome.NotSelected? ==> !m.offers[x.offer].state.Open?)
    && (x.outcome.AwardedProposal? ==> m.offers[x.offer].agreed.Some? && m.offers[x.offer].agreed.value.proposal == p)
  }

  /** The agreed terms of an awarded offer are those of one of its priced proposals. */
  ghost predicate TermsOk(m: Market, o: OfferId, t: Terms)
    requires o in m.offers
  {
    && t.proposal in m.proposals && m.proposals[t.proposal].offer == o
    && t.company == m.proposals[t.proposal].company && t.unitPrice == m.proposals[t.proposal].unitPrice
    && t.quantity == m.offers[o].quantity && t.total == TotalFor(t.unitPrice, t.quantity)
  }

  ghost predicate OfferOk(m: Market, o: OfferId)
    requires o in m.offers
  {
    var x := m.offers[o];
    && (x.state.Awarded? <==> x.agreed.Some?)
    && (x.agreed.Some? ==>
          && TermsOk(m, o, x.agreed.value) && x.agreed.value.unitPrice.Some?
          && m.proposals[x.agreed.value.proposal].outcome.AwardedProposal?)
  }

  ghost predicate PendingOk(m: Market, w: Pending) {
    match w
    case Proposing(o, c, _) => o in m.offers && m.offers[o].raisedBy != c
    case Awarding(o, t) => o in m.offers && TermsOk(m, o, t) && !m.proposals[t.proposal].outcome.Declined?
    case Withdrawing(o) => o in m.offers
  }

  ghost predicate Inv(m: Market) {
    && (forall p <- m.proposals :: ProposalOk(m, p))
    && (forall o <- m.offers :: OfferOk(m, o))
    && (forall r <- m.pending :: PendingOk(m, m.pending[r]))
    && (forall p <- m.proposals, q <- m.proposals ::
          m.proposals[p].offer == m.proposals[q].offer && m.proposals[p].company == m.proposals[q].company ==> p == q)
  }

  lemma AwardKeeps(m: Market, w: Pending)
    requires Inv(m) && w.Awarding? && PendingOk(m, w) && StillOpen(m, w.offer)
    ensures Inv(WriteAward(m, w))
  {
    var n := WriteAward(m, w);
    assert ProposalOk(m, w.terms.proposal);
    assert OfferOk(m, w.offer);
    forall p <- n.proposals ensures ProposalOk(n, p) { assert ProposalOk(m, p); }
    forall o <- n.offers ensures OfferOk(n, o) { assert OfferOk(m, o); }
    forall r <- n.pending ensures PendingOk(n, n.pending[r]) { assert PendingOk(m, m.pending[r]); }
  }

  lemma ProposeKeeps(m: Market, w: Pending, id: ProposalId)
    requires Inv(m) && w.Proposing? && PendingOk(m, w)
    ensures Inv(WritePropose(m, w, id))
  {
    var n := WritePropose(m, w, id);
    forall p <- n.proposals ensures ProposalOk(n, p) { if p in m.proposals { assert ProposalOk(m, p); } }
    forall o <- n.offers ensures OfferOk(n, o) { assert OfferOk(m, o); }
    forall r <- n.pending ensures PendingOk(n, n.pending[r]) { assert PendingOk(m, m.pending[r]); }
  }

  lemma WithdrawKeeps(m: Market, w: Pending)
    requires Inv(m) && w.Withdrawing?
    ensures Inv(WriteWithdraw(m, w))
  {
    var n := WriteWithdraw(m, w);
    forall p <- n.proposals ensures ProposalOk(n, p) { assert ProposalOk(m, p); }
    forall o <- n.offers ensures OfferOk(n, o) { assert OfferOk(m, o); }
    forall r <- n.pending ensures PendingOk(n, n.pending[r]) { assert PendingOk(m, m.pending[r]); }
  }

  lemma RememberKeeps(m: Market, r: RequestId, w: Pending)
    requires Inv(m) && PendingOk(m, w)
    ensures Inv(Remember(m, r, w))
  {
    var n := Remember(m, r, w);
    forall p <- n.proposals ensures ProposalOk(n, p) { assert ProposalOk(m, p); }
    forall o <- n.offers ensures OfferOk(n, o) { assert OfferOk(m, o); }
    forall q <- n.pending ensures PendingOk(n, n.pending[q]) {
      if q in m.pending { assert PendingOk(m, m.pending[q]); }
    }
  }

  lemma ForgetKeeps(m: Market, r: RequestId)
    requires Inv(m)
    ensures Inv(m.(pending := m.pending - {r}))
  {
    var n := m.(pending := m.pending - {r});
    forall p <- n.proposals ensures ProposalOk(n, p) { assert ProposalOk(m, p); }
    forall o <- n.offers ensures OfferOk(n, o) { assert OfferOk(m, o); }
    forall q <- n.pending ensures PendingOk(n, n.pending[q]) { assert PendingOk(m, m.pending[q]); }
  }

  lemma RaiseKeeps(m: Market, o: OfferId, actor: CompanyId, quantity: real)
    requires Inv(m)
    ensures Inv(Next(m, Raise(o, actor, quantity)))
  {
    var n := Next(m, Raise(o, actor, quantity));
    forall p <- n.proposals ensures ProposalOk(n, p) { assert ProposalOk(m, p); }
    forall x <- n.offers ensures OfferOk(n, x) { if x in m.offers { assert OfferOk(m, x); } }
    forall q <- n.pending ensures PendingOk(n, n.pending[q]) { assert PendingOk(m, m.pending[q]); }
  }

  lemma NextKeeps(m: Market, e: Event)
    requires Inv(m)
    ensures Inv(Next(m, e))
  {
    match e {
      case Raise(o, actor, quantity) => RaiseKeeps(m, o, actor, quantity);
      case ReadPropose(r, o, actor, price, decline, active, sells) =>
        if MayPropose(m, o, actor, price, decline, active, sells) { RememberKeeps(m, r, Proposing(o, actor, price)); }
      case ReadAward(r, o, actor, p) =>
        if MayAward(m, o, actor, p) { RememberKeeps(m, r, Awarding(o, ReadTerms(m, o, p))); }
      case ReadWithdraw(r, o, actor) =>
        if o in m.offers && m.offers[o].raisedBy == actor { RememberKeeps(m, r, Withdrawing(o)); }
      case Write(r, newId) =>
        if r in m.pending {
          var w, left := m.pending[r], m.(pending := m.pending - {r});
          ForgetKeeps(m, r);
          assert PendingOk(left, w);
          match w {
            case Proposing(_, _, _) => ProposeKeeps(left, w, newId);
            case Awarding(_, _) => if StillOpen(left, w.offer) { AwardKeeps(left, w); }
            case Withdrawing(_) => WithdrawKeeps(left, w);
          }
        }
    }
  }

  lemma {:induction false} RunKeeps(events: seq<Event>)
    ensures Inv(Run(EMPTY, events))
  {
    if events != [] {
      RunKeeps(events[..|events| - 1]);
      NextKeeps(Run(EMPTY, events[..|events| - 1]), events[|events| - 1]);
    }
  }

  // ---------- main results ----------

  ghost predicate IsAwarded(m: Market, o: OfferId, p: ProposalId) {
    p in m.proposals && m.proposals[p].offer == o && m.proposals[p].outcome.AwardedProposal?
  }

  /** The nearest whole halala to price times quantity. */
  ghost predicate IsTotal(total: int, price: real, quantity: real) {
    price * quantity - 0.5 < total as real <= price * quantity + 0.5
  }

  lemma TotalIsNear(price: real, quantity: real)
    ensures TotalFor(Some(price), quantity).Some? && IsTotal(TotalFor(Some(price), quantity).value, price, quantity)
  {
  }

  /** Within one market: an offer's AWARDED proposal is the one its terms name, and it has one only if awarded. */
  lemma WinnerIsNamed(m: Market, o: OfferId, p: ProposalId)
    requires Inv(m) && o in m.offers
    ensures IsAwarded(m, o, p) <==> m.offers[o].agreed.Some? && m.offers[o].agreed.value.proposal == p
  {
    assert OfferOk(m, o);
    if p in m.proposals { assert ProposalOk(m, p); }
  }

  /** In every reachable state an AWARDED offer has exactly one AWARDED proposal and any other offer
      has none; that proposal is not the raiser's, and its price times the quantity rounds to the
      agreed total. */
  lemma AwardedOfferHasOneWinner(events: seq<Event>, o: OfferId)
    requires o in Run(EMPTY, events).offers
    ensures var m := Run(EMPTY, events);
            var offer := m.offers[o];
      && (offer.state.Awarded? <==> offer.agreed.Some?)
      && (offer.state.Awarded? ==>
            var t := offer.agreed.value;
            && t.proposal in m.proposals && (forall p: ProposalId :: IsAwarded(m, o, p) <==> p == t.proposal)
            && t.company == m.proposals[t.proposal].company != offer.raisedBy
            && t.unitPrice.Some? && m.proposals[t.proposal].unitPrice == t.unitPrice
            && t.quantity == offer.quantity
            && t.total.Some? && IsTotal(t.total.value, t.unitPrice.value, offer.quantity))
      && (!offer.state.Awarded? ==> forall p: ProposalId :: !IsAwarded(m, o, p))
  {
    var m := Run(EMPTY, events);
    RunKeeps(events);
    assert OfferOk(m, o);
    forall p: ProposalId { WinnerIsNamed(m, o, p); }
    if m.offers[o].state.Awarded? {
      var t := m.offers[o].agreed.value;
      assert ProposalOk(m, t.proposal);
      TotalIsNear(t.unitPrice.value, t.quantity);
    }
  }

  lemma ResolvedOfferIsFrozenByStep(m: Market, e: Event, o: OfferId)
    requires o in m.offers
    ensures o in Next(m, e).offers
    ensures !m.offers[o].state.Open? ==> Next(m, e).offers[o] == m.offers[o]
    ensures Next(m, e).offers[o].raisedBy == m.offers[o].raisedBy
        && Next(m, e).offers[o].quantity == m.offers[o].quantity
  {
  }

  /** An offer leaves OPEN at most once: from then on neither its state nor its agreed terms change. */
  lemma {:induction false} ResolvedOfferNeverChanges(m: Market, events: seq<Event>, o: OfferId)
    requires o in m.offers && !m.offers[o].state.Open?
    ensures o in Run(m, events).offers && Run(m, events).offers[o] == m.offers[o]
  {
    if events != [] {
      ResolvedOfferNeverChanges(m, events[..|events| - 1], o);
      ResolvedOfferIsFrozenByStep(Run(m, events[..|events| - 1]), events[|events| - 1], o);
    }
  }

  /** A company answers an offer at most once, whatever interleaves. */
  lemma OneAnswerPerCompany(events: seq<Event>, p: ProposalId, q: ProposalId)
    requires var m := Run(EMPTY, events);
             p in m.proposals && q in m.proposals && m.proposals[p].offer == m.proposals[q].offer
                 && m.proposals[p].company == m.proposals[q].company
    ensures p == q
  {
    RunKeeps(events);
  }

  // ---------- how an answer changes ----------

  /** The event is the write of a pending award of this offer, while the offer is open. */
  predicate AwardsOffer(m: Market, e: Event, o: OfferId) {
    e.Write? && e.r in m.pending && m.pending[e.r].Awarding? && m.pending[e.r].offer == o && StillOpen(m, o)
  }

  lemma StepAnswer(m: Market, e: Event, p: ProposalId)
    requires Inv(m) && p in m.proposals
    ensures p in Next(m, e).proposals
    ensures var was, now := m.proposals[p], Next(m, e).proposals[p];
      && now == was.(outcome := now.outcome)
      && (now != was <==> AwardsOffer(m, e, was.offer))
      && (AwardsOffer(m, e, was.offer) ==>
            now.outcome == if p == m.pending[e.r].terms.proposal then AwardedProposal else NotSelected)
  {
    assert ProposalOk(m, p);
    assert OfferOk(m, m.proposals[p].offer);
    if e.Write? && e.r in m.pending { assert PendingOk(m, m.pending[e.r]); }
  }

  /** In every interleaving an answer changes if and only if the event is the write of a pending
      award of its own offer while that offer is open. It then becomes the winner or not selected,
      a declined answer included; nobody's price, company or offer ever changes. */
  lemma AwardResolvesEveryAnswer(events: seq<Event>, e: Event, p: ProposalId)
    requires p in Run(EMPTY, events).proposals
    ensures p in Next(Run(EMPTY, events), e).proposals
    ensures var m := Run(EMPTY, events);
            var was, now := m.proposals[p], Next(m, e).proposals[p];
      && now == was.(outcome := now.outcome)
      && (now != was <==> AwardsOffer(m, e, was.offer))
      && (AwardsOffer(m, e, was.offer) ==>
            now.outcome == if p == m.pending[e.r].terms.proposal then AwardedProposal else NotSelected)
      && (was.outcome.Declined? && now != was ==> now.outcome.NotSelected?)
  {
    var m := Run(EMPTY, events);
    RunKeeps(events);
    StepAnswer(m, e, p);
    if e.Write? && e.r in m.pending { assert PendingOk(m, m.pending[e.r]); }
  }

  lemma {:induction false} RunKeepsFrom(m: Market, events: seq<Event>)
    requires Inv(m)
    ensures Inv(Run(m, events))
  {
    if events != [] {
      RunKeepsFrom(m, events[..|events| - 1]);
      NextKeeps(Run(m, events[..|events| - 1]), events[|events| - 1]);
    }
  }

  /** Once its offer is no longer open, an answer that is in never changes again. */
  lemma {:induction false} AnswerToResolvedOfferIsFinal(events: seq<Event>, later: seq<Event>, p: ProposalId)
    requires var m := Run(EMPTY, events);
             p in m.proposals && m.proposals[p].offer in m.offers && !m.offers[m.proposals[p].offer].state.Open?
    ensures var m, n := Run(EMPTY, events), Run(Run(EMPTY, events), later);
            p in n.proposals && n.proposals[p] == m.proposals[p]
  {
    if later != [] {
      var m, init := Run(EMPTY, events), later[..|later| - 1];
      AnswerToResolvedOfferIsFinal(events, init, p);
      ResolvedOfferNeverChanges(m, init, m.proposals[p].offer);
      RunKeeps(events);
      RunKeepsFrom(m, init);
      StepAnswer(Run(m, init), later[|later| - 1], p);
    }
  }

  /** A decline is final over a whole continuation if and only if its offer was already resolved when
      it stood, or has not been awarded since; otherwise it ends as not selected. */
  lemma {:induction false} DeclineIsFinalExactlyWhen(events: seq<Event>, later: seq<Event>, p: ProposalId)
    requires p in Run(EMPTY, events).proposals && Run(EMPTY, events).proposals[p].outcome.Declined?
    ensures var m, n := Run(EMPTY, events), Run(Run(EMPTY, events), later);
            var o := m.proposals[p].offer;
      && o in m.offers && o in n.offers && p in n.proposals
      && n.proposals[p] == (if !m.offers[o].state.Open? || !n.offers[o].state.Awarded? then m.proposals[p]
                            else m.proposals[p].(outcome := NotSelected))
  {
    var m := Run(EMPTY, events);
    var o := m.proposals[p].offer;
    RunKeeps(events);
    assert ProposalOk(m, p);
    if !m.offers[o].state.Open? {
      AnswerToResolvedOfferIsFinal(events, later, p);
      ResolvedOfferNeverChanges(m, later, o);
    } else if later != [] {
      var before, e := Run(m, later[..|later| - 1]), later[|later| - 1];
      DeclineIsFinalExactlyWhen(events, later[..|later| - 1], p);
      RunKeepsFrom(m, later[..|later| - 1]);
      StepAnswer(before, e, p);
      OfferStep(before, e, o);
    }
  }

  /** An offer becomes awarded exactly by the write of one of its pending awards while it is open. */
  lemma OfferStep(m: Market, e: Event, o: OfferId)
    requires Inv(m) && o in m.offers
    ensures o in Next(m, e).offers
    ensures Next(m, e).offers[o].state.Awarded? <==> m.offers[o].state.Awarded? || AwardsOffer(m, e, o)
    ensures AwardsOffer(m, e, o) ==> m.pending[e.r].terms.proposal in m.proposals
                                     && !m.proposals[m.pending[e.r].terms.proposal].outcome.Declined?
  {
    if e.Write? && e.r in m.pending { assert PendingOk(m, m.pending[e.r]); }
  }

  /** A proposal read while its offer was open can land after the award. In every interleaving, once
      it has landed it stays PROPOSED however the run goes on, and never touches the award. */
  lemma LateProposalLandsAfterAward(events: seq<Event>, r: RequestId, id: ProposalId, later: seq<Event>)
    requires var m := Run(EMPTY, events);
      && r in m.pending && m.pending[r].Proposing? && m.pending[r].unitPrice.Some?
      && m.pending[r].offer in m.offers && m.offers[m.pending[r].offer].state.Awarded?
      && !Answered(m, m.pending[r].offer, m.pending[r].company) && id !in m.proposals
    ensures var m, n := Run(EMPTY, events), Run(Run(EMPTY, events + [Write(r, id)]), later);
      && id in n.proposals
      && n.proposals[id] == Proposal(m.pending[r].offer, m.pending[r].company, m.pending[r].unitPrice, Proposed)
      && m.pending[r].offer in n.offers && n.offers[m.pending[r].offer] == m.offers[m.pending[r].offer]
  {
    var m, landing := Run(EMPTY, events), events + [Write(r, id)];
    assert landing[..|events|] == events;
    assert !Answered(m.(pending := m.pending - {r}), m.pending[r].offer, m.pending[r].company);
    AnswerToResolvedOfferIsFinal(landing, later, id);
    ResolvedOfferNeverChanges(Run(EMPTY, landing), later, m.pending[r].offer);
  }

  // ---------- who may answer, and who may resolve ----------

  /** Request `r` asked, at event `n`, to answer this offer: it was open then and its raiser active, the
      company is not the raiser, and it either declined or named a price for a grade it sells. */
  ghost predicate AskedAt(events: seq<Event>, n: nat, o: OfferId, c: CompanyId, price: Option<real>) {
    && n < |events| && events[n].ReadPropose? && events[n].o == o && events[n].actor == c && events[n].price == price
    && events[n].raiserActive && events[n].decline == price.None? && (price.Some? ==> events[n].sellsGrade)
    && var m := Run(EMPTY, events[..n]);
       o in m.offers && m.offers[o].state.Open? && m.offers[o].raisedBy != c
  }

  ghost predicate Asked(events: seq<Event>, o: OfferId, c: CompanyId, price: Option<real>) {
    exists n: nat :: AskedAt(events, n, o, c, price)
  }

  /** The offer's raiser began, at event `n`, to award it to this proposal, or to withdraw it. */
  ghost predicate AwardBegunAt(events: seq<Event>, n: nat, o: OfferId, p: ProposalId) {
    && n < |events| && events[n].ReadAward? && events[n].o == o && events[n].proposal == p
    && var m := Run(EMPTY, events[..n]);
       o in m.offers && m.offers[o].raisedBy == events[n].actor
  }

  ghost predicate AwardBegun(events: seq<Event>, o: OfferId, p: ProposalId) {
    exists n: nat :: AwardBegunAt(events, n, o, p)
  }

  ghost predicate WithdrawBegunAt(events: seq<Event>, n: nat, o: OfferId) {
    && n < |events| && events[n].ReadWithdraw? && events[n].o == o
    && var m := Run(EMPTY, events[..n]);
       o in m.offers && m.offers[o].raisedBy == events[n].actor
  }

  ghost predicate WithdrawBegun(events: seq<Event>, o: OfferId) { exists n: nat :: WithdrawBegunAt(events, n, o) }

  lemma BegunStays(events: seq<Event>, e: Event)
    ensures forall o: OfferId, c: CompanyId, price: Option<real> ::
              Asked(events, o, c, price) ==> Asked(events + [e], o, c, price)
    ensures forall o: OfferId, p: ProposalId :: AwardBegun(events, o, p) ==> AwardBegun(events + [e], o, p)
    ensures forall o: OfferId :: WithdrawBegun(events, o) ==> WithdrawBegun(events + [e], o)
  {
    var all := events + [e];
    forall o: OfferId, c: CompanyId, price: Option<real> | Asked(events, o, c, price) ensures Asked(all, o, c, price) {
      var n: nat :| AskedAt(events, n, o, c, price);
      assert all[..n] == events[..n];
      assert AskedAt(all, n, o, c, price);
    }
    forall o: OfferId, p: ProposalId | AwardBegun(events, o, p) ensures AwardBegun(all, o, p) {
      var n: nat :| AwardBegunAt(events, n, o, p);
      assert all[..n] == events[..n];
      assert AwardBegunAt(all, n, o, p);
    }
    forall o: OfferId | WithdrawBegun(events, o) ensures WithdrawBegun(all, o) {
      var n: nat :| WithdrawBegunAt(events, n, o);
      assert all[..n] == events[..n];
      assert WithdrawBegunAt(all, n, o);
    }
  }

  ghost predicate PendingBegun(events: seq<Event>, w: Pending) {
    match w
    case Proposing(o, c, price) => Asked(events, o, c, price)
    case Awarding(o, t) => AwardBegun(events, o, t.proposal)
    case Withdrawing(o) => WithdrawBegun(events, o)
  }

  ghost predicate OfferBegun(events: seq<Event>, o: OfferId, x: Offer) {
    match x.state
    case Open => true
    case Awarded => x.agreed.Some? && AwardBegun(events, o, x.agreed.value.proposal)
    case Withdrawn => WithdrawBegun(events, o)
  }

  /** Everything in flight, every answer and every resolution was begun by someone entitled to it. */
  ghost predicate AllBegun(events: seq<Event>, m: Market) {
    && (forall r <- m.pending :: PendingBegun(events, m.pending[r]))
    && (forall p <- m.proposals ::
          Asked(events, m.proposals[p].offer, m.proposals[p].company, m.proposals[p].unitPrice))
    && (forall o <- m.offers :: OfferBegun(events, o, m.offers[o]))
  }

  lemma AllBegunStays(events: seq<Event>, e: Event, m: Market)
    requires AllBegun(events, m)
    ensures AllBegun(events + [e], m)
  {
    BegunStays(events, e);
    forall r <- m.pending ensures PendingBegun(events + [e], m.pending[r]) {
      assert PendingBegun(events, m.pending[r]);
    }
    forall o <- m.offers ensures OfferBegun(events + [e], o, m.offers[o]) { assert OfferBegun(events, o, m.offers[o]); }
  }

  lemma RememberBegun(events: seq<Event>, m: Market, r: RequestId, w: Pending)
    requires AllBegun(events, m) && PendingBegun(events, w)
    ensures AllBegun(events, Remember(m, r, w))
  {
    var n := Remember(m, r, w);
    forall q <- n.pending ensures PendingBegun(events, n.pending[q]) {
      if q in m.pending { assert PendingBegun(events, m.pending[q]); }
    }
  }

  lemma ReadBegins(events: seq<Event>, e: Event, m: Market)
    requires !e.Write? && m == Run(EMPTY, events) && AllBegun(events + [e], m)
    ensures AllBegun(events + [e], Next(m, e))
  {
    var all := events + [e];
    assert all[..|events|] == events;
    match e {
      case Raise(o, _, _) =>
        var n := Next(m, e);
        forall x <- n.offers ensures OfferBegun(all, x, n.offers[x]) {
          if x in m.offers { assert OfferBegun(all, x, m.offers[x]); }
        }
      case ReadPropose(r, o, actor, price, decline, active, sells) =>
        if MayPropose(m, o, actor, price, decline, active, sells) {
          assert AskedAt(all, |events|, o, actor, price);
          RememberBegun(all, m, r, Proposing(o, actor, price));
        }
      case ReadAward(r, o, actor, p) =>
        if MayAward(m, o, actor, p) {
          assert AwardBegunAt(all, |events|, o, p);
          RememberBegun(all, m, r, Awarding(o, ReadTerms(m, o, p)));
        }
      case ReadWithdraw(r, o, actor) =>
        if o in m.offers && m.offers[o].raisedBy == actor {
          assert WithdrawBegunAt(all, |events|, o);
          RememberBegun(all, m, r, Withdrawing(o));
        }
    }
  }

  lemma ProposeBegins(events: seq<Event>, m: Market, w: Pending, id: ProposalId)
    requires AllBegun(events, m) && w.Proposing? && PendingBegun(events, w)
    ensures AllBegun(events, WritePropose(m, w, id))
  {
  }

  lemma AwardBegins(events: seq<Event>, m: Market, w: Pending)
    requires AllBegun(events, m) && w.Awarding? && PendingBegun(events, w)
    ensures AllBegun(events, WriteAward(m, w))
  {
    var n := WriteAward(m, w);
    forall o <- n.offers ensures OfferBegun(events, o, n.offers[o]) { assert OfferBegun(events, o, m.offers[o]); }
  }

  lemma WithdrawBegins(events: seq<Event>, m: Market, w: Pending)
    requires AllBegun(events, m) && w.Withdrawing? && PendingBegun(events, w)
    ensures AllBegun(events, WriteWithdraw(m, w))
  {
    var n := WriteWithdraw(m, w);
    forall o <- n.offers ensures OfferBegun(events, o, n.offers[o]) { assert OfferBegun(events, o, m.offers[o]); }
  }

  lemma WriteBegins(events: seq<Event>, e: Event, m: Market)
    requires e.Write? && AllBegun(events, m)
    ensures AllBegun(events, Next(m, e))
  {
    if e.r in m.pending {
      var w, left := m.pending[e.r], m.(pending := m.pending - {e.r});
      assert PendingBegun(events, w);
      forall r <- left.pending ensures PendingBegun(events, left.pending[r]) {
        assert PendingBegun(events, m.pending[r]);
      }
      match w {
        case Proposing(_, _, _) => ProposeBegins(events, left, w, e.newId);
        case Awarding(_, _) => AwardBegins(events, left, w);
        case Withdrawing(_) => WithdrawBegins(events, left, w);
      }
    }
  }

  /** In every interleaving each answer was asked for by a company entitled to give it, and each offer
      that left OPEN was resolved by its own raiser, awarded offers to the proposal the raiser named. */
  lemma {:induction false} OnlyTheEntitledAct(events: seq<Event>)
    ensures AllBegun(events, Run(EMPTY, events))
  {
    if events != [] {
      var init, e := events[..|events| - 1], events[|events| - 1];
      OnlyTheEntitledAct(init);
      assert init + [e] == events;
      AllBegunStays(init, e, Run(EMPTY, init));
      if e.Write? { WriteBegins(events, e, Run(EMPTY, init)); } else { ReadBegins(init, e, Run(EMPTY, init)); }
    }
  }

  // ---------- requests nothing interrupts ----------

  /** An answer nothing interrupts is entered exactly when the offer is open, its raiser active and another
      company, the answer declines or prices but not both, a price is for a grade the company sells, and
      the company has not answered yet. */
  lemma LoneAnswerLandsExactlyWhen(m: Market, r: RequestId, id: ProposalId, o: OfferId, actor: CompanyId,
                                   price: Option<real>, decline: bool, raiserActive: bool, sellsGrade: bool)
    requires r !in m.pending && id !in m.proposals
    ensures var n := Next(Next(m, ReadPropose(r, o, actor, price, decline, raiserActive, sellsGrade)), Write(r, id));
      && n.offers == m.offers && n.pending == m.pending
      && (id in n.proposals <==>
            && o in m.offers && m.offers[o].state.Open? && m.offers[o].raisedBy != actor && raiserActive
            && (decline <==> price.None?) && (decline || sellsGrade)
            && forall p <- m.proposals :: !(m.proposals[p].offer == o && m.proposals[p].company == actor))
      && (id in n.proposals ==>
            n.proposals == m.proposals[id := Proposal(o, actor, price, if decline then Declined else Proposed)])
      && (id !in n.proposals ==> n == m)
  {
    var asked := Next(m, ReadPropose(r, o, actor, price, decline, raiserActive, sellsGrade));
    assert asked.pending - {r} == m.pending;
  }

  /** An award nothing interrupts goes through exactly when the raiser names an answer to its own open
      offer that is not a decline; a withdrawal, exactly when the raiser asks for it while it is open. */
  lemma LoneResolutionGoesThroughExactlyWhen(m: Market, r: RequestId, o: OfferId, actor: CompanyId, p: ProposalId)
    requires r !in m.pending && o in m.offers && m.offers[o].state.Open?
    ensures var awarded := Next(Next(m, ReadAward(r, o, actor, p)), Write(r, 0));
      && o in awarded.offers
      && (awarded.offers[o].state.Awarded? <==>
            && m.offers[o].raisedBy == actor
            && p in m.proposals && m.proposals[p].offer == o && !m.proposals[p].outcome.Declined?)
      && (!awarded.offers[o].state.Awarded? ==> awarded == m)
    ensures var withdrawn := Next(Next(m, ReadWithdraw(r, o, actor)), Write(r, 0));
      && o in withdrawn.offers
      && (withdrawn.offers[o].state.Withdrawn? <==> m.offers[o].raisedBy == actor)
      && withdrawn == m.(offers := withdrawn.offers)
      && withdrawn.offers == m.offers[o := m.offers[o].(state := withdrawn.offers[o].state)]
  {
    assert m.pending[r := Withdrawing(o)] - {r} == m.pending;
  }

  // ---------- two runs that reach those cases ----------

  lemma RunPush(m: Market, events: seq<Event>, e: Event)
    ensures Run(m, events + [e]) == Next(Run(m, events), e)
  {
    assert (events + [e])[..|events|] == events;
  }

  /** Company 10 raises offer 1, and company 20 has answered it at 5 a litre as proposal 100. */
  const PROPOSED_RUN := [Raise(1, 10, 2.0), ReadPropose(1, 1, 20, Some(5.0), false, true, true), Write(1, 100)]
  const PROPOSED_MARKET := Market(map[1 := Offer(10, 2.0, Open, None)],
                                  map[100 := Proposal(1, 20, Some(5.0), Proposed)], map[])

  lemma ReachesProposed()
    ensures Run(EMPTY, PROPOSED_RUN) == PROPOSED_MARKET
  {
    var raise, read, write := Raise(1, 10, 2.0), ReadPropose(1, 1, 20, Some(5.0), false, true, true), Write(1, 100);
    assert PROPOSED_RUN[..2] == [raise, read] && [raise, read][..1] == [raise] && [raise][..0] == [];
    var raised := Market(map[1 := Offer(10, 2.0, Open, None)], map[], map[]);
    var asked := raised.(pending := map[1 := Proposing(1, 20, Some(5.0))]);
    assert Run(EMPTY, [raise]) == Next(EMPTY, raise) == raised;
    assert Run(EMPTY, [raise, read]) == Next(raised, read) == asked;
    AnswerLands(asked, 1, 100);
    assert asked.pending - {1} == map[];
  }

  /** The first answer of its company, under a fresh id, is inserted. */
  lemma AnswerLands(m: Market, r: RequestId, id: ProposalId)
    requires r in m.pending && m.pending[r].Proposing? && id !in m.proposals
    requires !Answered(m, m.pending[r].offer, m.pending[r].company)
    ensures var w := m.pending[r];
            Next(m, Write(r, id)) == Market(m.offers, m.proposals[id := Proposal(w.offer, w.company, w.unitPrice,
              if w.unitPrice.None? then Declined else Proposed)], m.pending - {r})
  {
    assert !Answered(m.(pending := m.pending - {r}), m.pending[r].offer, m.pending[r].company);
  }

  function Winning(): Terms { Terms(100, 20, Some(5.0), TotalFor(Some(5.0), 2.0), 2.0) }

  /** Company 30 declines offer 1 as proposal 101; then proposal 100 is awarded. */
  const DECLINED_RUN := PROPOSED_RUN + [ReadPropose(2, 1, 30, None, true, true, true)] + [Write(2, 101)]
  const DECLINED_THEN_AWARDED_RUN := DECLINED_RUN + [ReadAward(3, 1, 10, 100)] + [Write(3, 0)]

  lemma ReachesDeclined()
    ensures Run(EMPTY, DECLINED_RUN)
        == PROPOSED_MARKET.(proposals := PROPOSED_MARKET.proposals[101 := Proposal(1, 30, None, Declined)])
  {
    var read := ReadPropose(2, 1, 30, None, true, true, true);
    ReachesProposed();
    RunPush(EMPTY, PROPOSED_RUN, read);
    RunPush(EMPTY, PROPOSED_RUN + [read], Write(2, 101));
    var asked := PROPOSED_MARKET.(pending := map[2 := Proposing(1, 30, None)]);
    assert Run(EMPTY, PROPOSED_RUN + [read]) == asked;
    AnswerLands(asked, 2, 101);
    assert asked.pending - {2} == map[];
  }

  /** A declined answer that does not stay declined. */
  lemma DeclineIsOverwritten()
    ensures var m, n := Run(EMPTY, DECLINED_RUN), Run(EMPTY, DECLINED_THEN_AWARDED_RUN);
      && 101 in m.proposals && m.proposals[101] == Proposal(1, 30, None, Declined)
      && 101 in n.proposals && n.proposals[101] == Proposal(1, 30, None, NotSelected)
  {
    var read := ReadAward(3, 1, 10, 100);
    ReachesDeclined();
    RunPush(EMPTY, DECLINED_RUN, read);
    RunPush(EMPTY, DECLINED_RUN + [read], Write(3, 0));
    var m := Run(EMPTY, DECLINED_RUN + [read]);
    assert m.pending == map[3 := Awarding(1, Winning())];
    assert AwardsOffer(m, Write(3, 0), 1);
    AwardResolvesEveryAnswer(DECLINED_RUN + [read], Write(3, 0), 101);
  }

  /** Company 30 reads offer 1 while it is open; proposal 100 is awarded; then 30's write lands. */
  const OVERTAKEN_RUN :=
    PROPOSED_RUN + [ReadPropose(2, 1, 30, Some(4.0), false, true, true)] + [ReadAward(3, 1, 10, 100)] + [Write(3, 0)]

  /** The late proposal is reachable, and stays PROPOSED on an awarded offer for ever. */
  lemma LateProposalIsReachable(later: seq<Event>)
    ensures var n := Run(Run(EMPTY, OVERTAKEN_RUN + [Write(2, 101)]), later);
      && 1 in n.offers && n.offers[1].state.Awarded?
      && 101 in n.proposals && n.proposals[101] == Proposal(1, 30, Some(4.0), Proposed)
  {
    var late, award := ReadPropose(2, 1, 30, Some(4.0), false, true, true), ReadAward(3, 1, 10, 100);
    ReachesProposed();
    RunPush(EMPTY, PROPOSED_RUN, late);
    RunPush(EMPTY, PROPOSED_RUN + [late], award);
    RunPush(EMPTY, PROPOSED_RUN + [late] + [award], Write(3, 0));
    var m := Run(EMPTY, PROPOSED_RUN + [late] + [award]);
    assert m == PROPOSED_MARKET.(pending := map[2 := Proposing(1, 30, Some(4.0)), 3 := Awarding(1, Winning())]);
    assert Run(EMPTY, OVERTAKEN_RUN).pending == map[2 := Proposing(1, 30, Some(4.0))];
    LateProposalLandsAfterAward(OVERTAKEN_RUN, 2, 101, later);
  }

  // ---------- the collections ----------

  class ExchangeStore {
    var offers: map<OfferId, Offer>
    var proposals: map<ProposalId, Proposal>

    /** The collections as a market with nothing in flight. */
    ghost function Stored(): Market
      reads this
    {
      Market(offers, proposals, map[])
    }

    method CommitProposal(w: Pending, id: ProposalId) returns (accepted: bool)
      requires w.Proposing?
      modifies this`proposals
      ensures Stored() == WritePropose(old(Stored()), w, id)
      ensures accepted <==> old(!Answered(Stored(), w.offer, w.company) && id !in proposals)
    {
      if exists p <- proposals :: proposals[p].offer == w.offer && proposals[p].company == w.company { return false; }
      if id in proposals { return false; }
      var outcome := if w.unitPrice.None? then Declined else Proposed;
      proposals := proposals[id := Proposal(w.offer, w.company, w.unitPrice, outcome)];
      return true;
    }

    /** Conditional update of the offer first, then the winner, then everyone else, in one transaction. */
    method CommitAward(w: Pending) returns (won: bool)
      requires w.Awarding?
      modifies this
      ensures Stored() == WriteAward(old(Stored()), w) && won == old(StillOpen(Stored(), w.offer))
    {
      if w.offer !in offers || !offers[w.offer].state.Open? { return false; }
      offers := offers[w.offer := offers[w.offer].(state := Awarded, agreed := Some(w.terms))];
      var winner := w.terms.proposal;
      if winner in proposals { proposals := proposals[winner := proposals[winner].(outcome := AwardedProposal)]; }
      proposals := map p <- proposals ::
        if proposals[p].offer == w.offer && p != winner then proposals[p].(outcome := NotSelected) else proposals[p];
      return true;
    }

    method CommitWithdraw(w: Pending) returns (done: bool)
      requires w.Withdrawing?
      modifies this`offers
      ensures Stored() == WriteWithdraw(old(Stored()), w) && done == old(StillOpen(Stored(), w.offer))
    {
      if w.offer !in offers || !offers[w.offer].state.Open? { return false; }
      offers := offers[w.offer := offers[w.offer].(state := Withdrawn)];
      return true;
    }
  }
}
