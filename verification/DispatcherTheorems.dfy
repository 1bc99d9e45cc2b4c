/** The dispatcher's decision does not depend on the order of its targets, and a profile stays with its mapping. */
module DispatcherTheorems {
  import opened Prelude
  import opened Ordering
  import opened Dispatcher

  ghost predicate SameTargets(ts: seq<Target>, us: seq<Target>) {
    multiset(ts) == multiset(us)
  }

  /** proxy.New and Mapping.Validate: one mapping per upstream, and only the two upstreams there is a direction for. */
  predicate OneEach(ts: seq<Target>) {
    && (forall i, j :: 0 <= i < j < |ts| ==> ts[i].upstream != ts[j].upstream)
    && (forall i :: 0 <= i < |ts| ==> !ts[i].upstream.MessagesUpstream?)
  }

  lemma SameMembers(ts: seq<Target>, us: seq<Target>)
    requires SameTargets(ts, us)
    ensures forall t :: t in ts <==> t in us
  {
    forall t
      ensures t in ts <==> t in us
    {
      assert t in ts <==> t in multiset(ts);
      assert t in us <==> t in multiset(us);
    }
  }

  lemma UpstreamNamesTarget(ts: seq<Target>, t: Target, u: Target)
    requires OneEach(ts) && t in ts && u in ts && t.upstream == u.upstream
    ensures t == u
  {
    var i :| 0 <= i < |ts| && ts[i] == t;
    var j :| 0 <= j < |ts| && ts[j] == u;
    assert i < j || j < i || i == j;
  }

  lemma AtMostOneMember<T>(s: set<T>, x: T, y: T)
    requires |s| <= 1 && x in s && y in s
    ensures x == y
  {
    if x != y {
      assert {x, y} <= s;
      CardinalityMonotone({x, y}, s);
    }
  }

  lemma {:induction false} CardinalityMonotone<T>(a: set<T>, b: set<T>)
    requires a <= b
    ensures |a| <= |b|
  {
    if a != {} {
      var x :| x in a;
      CardinalityMonotone(a - {x}, b - {x});
    }
  }

  // ----- Conflicts -----

  lemma DialectsIgnoreOrder(ts: seq<Target>, us: seq<Target>)
    requires forall t :: t in ts <==> t in us
    ensures forall model :: Dialects(ts, model) == Dialects(us, model)
    ensures forall model :: DialectList(ts, model) == DialectList(us, model)
  {
    forall model
      ensures Dialects(ts, model) == Dialects(us, model)
    {
    }
  }

  lemma {:induction false} ConflictListsIgnoreOrder(ts: seq<Target>, us: seq<Target>, models: seq<string>)
    requires forall model :: DialectList(ts, model) == DialectList(us, model)
    ensures ConflictLists(ts, models) == ConflictLists(us, models)
  {
    if models != [] {
      ConflictListsIgnoreOrder(ts, us, models[..|models| - 1]);
    }
  }

  /** The refusal of a name the route cannot decide, word for word, or the absence of one, is the same in every
      registration order, however many targets there are. */
  lemma ConflictIgnoresOrder(ts: seq<Target>, us: seq<Target>, name: string)
    requires SameTargets(ts, us)
    ensures RouteConflict(ts, name) == RouteConflict(us, name)
  {
    SameMembers(ts, us);
    DialectsIgnoreOrder(ts, us);
    assert Claimed(ts, name) == Claimed(us, name);
    var profiles := Claimed(ts, name);
    assert Doubly(ts, profiles) == Doubly(us, profiles);
    assert Decisions(ts, profiles) == Decisions(us, profiles);
    StringOrder();
    ConflictListsIgnoreOrder(ts, us, Listing(StringLe, Doubly(ts, profiles)));
  }

  /** A name that is claimed and without conflict has at most one dialect and target model between all its claimants,
      and one tier between those whose target model has a dialect. */
  lemma DecisionsAgree(ts: seq<Target>, name: string, t: Target, d: string, u: Target, e: string)
    requires RouteConflict(ts, name).None?
    requires t in ts && Claims(t, name) && d in Dialects(ts, t.profiles[name].model)
    requires u in ts && Claims(u, name) && e in Dialects(ts, u.profiles[name].model)
    ensures d == e && t.profiles[name] == u.profiles[name]
  {
    var profiles := Claimed(ts, name);
    var p, q := t.profiles[name], u.profiles[name];
    assert p in profiles && q in profiles;
    assert p.model !in Doubly(ts, profiles) && q.model !in Doubly(ts, profiles);
    var decisions := Decisions(ts, profiles);
    assert Decision(d, p.model, p.tier) in decisions && Decision(e, q.model, q.tier) in decisions;
    assert Key(Decision(d, p.model, p.tier)) in Pairs(decisions);
    assert Key(Decision(e, q.model, q.tier)) in Pairs(decisions);
    AtMostOneMember(Pairs(decisions), (d, p.model), (e, q.model));
    assert p.tier in Tiers(decisions) && q.tier in Tiers(decisions);
    AtMostOneMember(Tiers(decisions), p.tier, q.tier);
  }

  // ----- Selection -----

  /** The search for one target finds the same one in every order when no two targets can be meant. */
  lemma FirstIgnoresOrder(pick: Pick, chatOnly: bool, ts: seq<Target>, us: seq<Target>, name: string)
    requires SameTargets(ts, us)
    requires forall t, u :: (t in ts && u in ts && Picks(pick, ts, t, name) && Picks(pick, ts, u, name) &&
                             (chatOnly ==> t.upstream.ChatUpstream? && u.upstream.ChatUpstream?)) ==> t == u
    ensures First(pick, chatOnly, ts, ts, name) == First(pick, chatOnly, us, us, name)
  {
    SameMembers(ts, us);
    PicksIgnoreOrder(pick, ts, us, name);
  }

  lemma PicksIgnoreOrder(pick: Pick, ts: seq<Target>, us: seq<Target>, name: string)
    requires forall t :: t in ts <==> t in us
    ensures forall t :: Picks(pick, ts, t, name) == Picks(pick, us, t, name)
  {
  }

  /** Whether a search finds anything does not depend on the order. */
  lemma FoundIgnoresOrder(pick: Pick, chatOnly: bool, ts: seq<Target>, us: seq<Target>, name: string)
    requires SameTargets(ts, us)
    ensures First(pick, chatOnly, ts, ts, name).Some? <==> First(pick, chatOnly, us, us, name).Some?
  {
    SameMembers(ts, us);
    PicksIgnoreOrder(pick, ts, us, name);
  }

  lemma HandlersIgnoreOrder(ts: seq<Target>, us: seq<Target>)
    requires SameTargets(ts, us) && OneEach(ts)
    ensures TableOf(ts).handlers == TableOf(us).handlers
  {
    forall t, u | t in ts && u in ts && t.upstream == u.upstream
      ensures t == u
    {
      UpstreamNamesTarget(ts, t, u);
    }
    FirstIgnoresOrder(Serving(ChatUpstream), false, ts, us, "");
    FirstIgnoresOrder(Serving(ResponsesUpstream), false, ts, us, "");
  }

  /** The claimant that answers for want of a dialect: the only chat claimant, or the only other one. */
  lemma FallbackIgnoresOrder(ts: seq<Target>, us: seq<Target>, name: string)
    requires SameTargets(ts, us) && OneEach(ts) && First(Claiming, false, ts, ts, name).Some?
    ensures First(Claiming, false, us, us, name).Some? && Fallback(ts, name) == Fallback(us, name)
  {
    FoundIgnoresOrder(Claiming, false, ts, us, name);
    forall t, u | t in ts && u in ts && t.upstream == u.upstream
      ensures t == u
    {
      UpstreamNamesTarget(ts, t, u);
    }
    FirstIgnoresOrder(Mapping, true, ts, us, name);
    if First(Mapping, true, ts, ts, name).None? {
      OthersAreResponses(Mapping, ts, name);
      FirstIgnoresOrder(Mapping, false, ts, us, name);
      FirstIgnoresOrder(Claiming, true, ts, us, name);
      if First(Claiming, true, ts, ts, name).None? {
        OthersAreResponses(Claiming, ts, name);
        FirstIgnoresOrder(Claiming, false, ts, us, name);
      }
    }
  }

  lemma OthersAreResponses(pick: Pick, ts: seq<Target>, name: string)
    requires OneEach(ts) && First(pick, true, ts, ts, name).None?
    ensures forall t :: t in ts && Picks(pick, ts, t, name) ==> t.upstream.ResponsesUpstream?
  {
    forall t | t in ts && Picks(pick, ts, t, name)
      ensures t.upstream.ResponsesUpstream?
    {
      var i :| 0 <= i < |ts| && ts[i] == t;
    }
  }

  lemma FirstViaIsDialect(ts: seq<Target>, model: string)
    requires Dialects(ts, model) != {}
    ensures FirstVia(ts, model) in Dialects(ts, model) && FirstVia(ts, model) != ""
  {
    var d :| d in Dialects(ts, model);
    var t :| t in ts && Explicit(t, model) && Via(t, model) == d;
    assert Picks(ByName, ts, t, model);
  }

  /** What decided a claimed name, in terms of the claimants: a dialect of a claimant's target model, or the fallback
      when no claimant's target model has one. */
  lemma ClaimedSelection(ts: seq<Target>, name: string)
    requires First(Claiming, false, ts, ts, name).Some?
    ensures var sel := Select(ts, name);
            && sel.target.Some? && sel.target.value in ts && Claims(sel.target.value, name)
            && sel.profileModel == sel.target.value.profiles[name].model
            && (sel.via != "" ==> sel.via in Dialects(ts, sel.profileModel))
            && (sel.via == "" ==> sel.target.value == Fallback(ts, name))
            && (sel.via == "" ==> forall t :: t in ts && Claims(t, name) ==> Dialects(ts, t.profiles[name].model) == {})
  {
    if First(Deciding, false, ts, ts, name).None? {
      match First(Indirect, false, ts, ts, name) {
        case Some(t) =>
          var model := t.profiles[name].model;
          var u :| u in ts && Explicit(u, model);
          assert Via(u, model) in Dialects(ts, model);
          FirstViaIsDialect(ts, model);
        case None =>
          forall t | t in ts && Claims(t, name)
            ensures Dialects(ts, t.profiles[name].model) == {}
          {
            assert !Picks(Indirect, ts, t, name);
          }
      }
    } else {
      var t := First(Deciding, false, ts, ts, name).value;
      assert Via(t, t.profiles[name].model) in Dialects(ts, t.profiles[name].model);
    }
  }

  /** Without a conflict two orders select the same dialect and target model, and the same target where it matters. */
  lemma SelectIgnoresOrder(ts: seq<Target>, us: seq<Target>, name: string)
    requires SameTargets(ts, us) && OneEach(ts) && RouteConflict(ts, name).None?
    ensures var a, b := Select(ts, name), Select(us, name);
            && a.via == b.via && a.profileModel == b.profileModel
            && (a.via == "" ==> a.target == b.target)
  {
    SameMembers(ts, us);
    DialectsIgnoreOrder(ts, us);
    FoundIgnoresOrder(Claiming, false, ts, us, name);
    var a, b := Select(ts, name), Select(us, name);
    if First(Claiming, false, ts, ts, name).Some? {
      ClaimedSelection(ts, name);
      ClaimedSelection(us, name);
      if a.via != "" {
        assert Dialects(us, a.profileModel) != {};
        DecisionsAgree(ts, name, a.target.value, a.via, b.target.value, b.via);
      } else {
        FallbackIgnoresOrder(ts, us, name);
      }
    } else {
      FoundIgnoresOrder(ByName, false, ts, us, name);
      RawDialectsAgree(ts, us, name);
    }
  }

  lemma RawDialectsAgree(ts: seq<Target>, us: seq<Target>, name: string)
    requires forall t :: t in ts <==> t in us
    requires RouteConflict(ts, name).None? && First(Claiming, false, ts, ts, name).None?
    ensures forall t, u :: t in ts && u in us && Explicit(t, name) && Explicit(u, name) ==> Via(t, name) == Via(u, name)
  {
    assert Claimed(ts, name) == {} by {
      forall t | t in ts
        ensures !Claims(t, name)
      {
        assert !Picks(Claiming, ts, t, name);
      }
    }
    forall t, u | t in ts && u in us && Explicit(t, name) && Explicit(u, name)
      ensures Via(t, name) == Via(u, name)
    {
      AtMostOneMember(Dialects(ts, name), Via(t, name), Via(u, name));
    }
  }

  /** The rest of the decision reads no more of the selection than that. */
  lemma AnswerIgnoresDecider(handlers: Handlers, name: string, a: Selection, b: Selection, req: Request)
    requires a.via == b.via && a.profileModel == b.profileModel && (a.via == "" ==> a.target == b.target)
    ensures Answer(handlers, name, a, req) == Answer(handlers, name, b, req)
  {
  }

  /** The full outcome, the handler that serves or the refusal with its status and message, is the same in every
      registration order of the targets, for all model maps, profile maps and requests. */
  lemma OutcomeIgnoresOrder(ts: seq<Target>, us: seq<Target>, req: Request)
    requires SameTargets(ts, us) && OneEach(ts)
    ensures Decided(TableOf(ts), req) == Decided(TableOf(us), req)
  {
    HandlersIgnoreOrder(ts, us);
    var name := ClientModel(req);
    ConflictIgnoresOrder(ts, us, name);
    if RouteConflict(ts, name).None? {
      SelectIgnoresOrder(ts, us, name);
      AnswerIgnoresDecider(TableOf(ts).handlers, name, Select(ts, name), Select(us, name), req);
    }
  }

  // ----- Profiles stay with their mappings -----

  /** The handler ServeHTTP's switch picks for a dialect that is not messages. */
  function Picked(handlers: Handlers, dialect: string): Option<Target> {
    if dialect == RESPONSES && handlers.responses.Some? then handlers.responses
    else if handlers.chat.Some? then handlers.chat
    else handlers.responses
  }

  /** Some claimant's target model is empty, so that ServeHTTP skips the check of the profile answer, and some target
      maps the empty model to a dialect. */
  ghost predicate Unguarded(ts: seq<Target>, name: string) {
    && (exists t :: t in ts && Claims(t, name) && t.profiles[name].model == "")
    && Dialects(ts, "") != {}
  }

  /** The handler picked for the dialect of the empty model. */
  function EmptyModelHandler(ts: seq<Target>): Option<Target> {
    Picked(TableOf(ts).handlers, FirstVia(ts, ""))
  }

  /** How an unguarded name is decided: every deciding claimant has the empty model, and the switch picks by its
      dialect. */
  lemma UnguardedSelection(ts: seq<Target>, name: string)
    requires Unguarded(ts, name) && RouteConflict(ts, name).None?
    ensures Select(ts, name).profileModel == "" && Select(ts, name).via == FirstVia(ts, "") != ""
    ensures forall t :: t in ts && Claims(t, name) && Dialects(ts, t.profiles[name].model) != {} ==>
              t.profiles[name].model == ""
  {
    var c :| c in ts && Claims(c, name) && c.profiles[name].model == "";
    assert Picks(Claiming, ts, c, name);
    ClaimedSelection(ts, name);
    FirstViaIsDialect(ts, "");
    var sel := Select(ts, name);
    DecisionsAgree(ts, name, c, FirstVia(ts, ""), sel.target.value, sel.via);
    forall t | t in ts && Claims(t, name) && Dialects(ts, t.profiles[name].model) != {}
      ensures t.profiles[name].model == ""
    {
      var d :| d in Dialects(ts, t.profiles[name].model);
      DecisionsAgree(ts, name, c, FirstVia(ts, ""), t, d);
    }
  }

  /** A guarded answer: the selected model is not empty, or no dialect decided. */
  lemma GuardedSelection(ts: seq<Target>, name: string)
    requires !Unguarded(ts, name) && First(Claiming, false, ts, ts, name).Some?
    ensures Select(ts, name).profileModel != "" || Select(ts, name).via == ""
  {
    ClaimedSelection(ts, name);
  }

  /** The check of the profile answer: a handler that passes it claims the name with the decided model. */
  lemma GuardedAnswer(handlers: Handlers, name: string, sel: Selection, req: Request, served: Target)
    requires Answer(handlers, name, sel, req) == Serve(served) && sel.target.Some?
    requires sel.profileModel != "" || sel.via == ""
    ensures sel.via == "" ==> served == sel.target.value
    ensures sel.via != "" ==> Claims(served, name) && served.profiles[name].model == sel.profileModel
    ensures served == sel.target.value || handlers.chat == Some(served) || handlers.responses == Some(served)
  {
  }

  /** The target that serves a guarded name claims it, with the model that decided. */
  lemma GuardedServes(ts: seq<Target>, req: Request, claimant: Target, served: Target)
    requires !NativelyResolved(req) && ClientModel(req) != "" && !Unguarded(ts, ClientModel(req))
    requires claimant in ts && Claims(claimant, ClientModel(req))
    requires Decided(TableOf(ts), req) == Serve(served)
    ensures var name := ClientModel(req);
            && RouteConflict(ts, name).None? && served in ts && Claims(served, name)
            && (Select(ts, name).via != "" ==>
                  && served.profiles[name].model == Select(ts, name).profileModel
                  && Select(ts, name).via in Dialects(ts, served.profiles[name].model))
            && (Select(ts, name).via == "" ==> Dialects(ts, claimant.profiles[name].model) == {})
  {
    var name := ClientModel(req);
    assert Picks(Claiming, ts, claimant, name);
    ClaimedSelection(ts, name);
    GuardedSelection(ts, name);
    assert Decided(TableOf(ts), req) == Answer(TableOf(ts).handlers, name, Select(ts, name), req);
    GuardedAnswer(TableOf(ts).handlers, name, Select(ts, name), req, served);
  }

  /** A guarded profile stays with its mapping. */
  lemma GuardedProfileStays(ts: seq<Target>, req: Request, claimant: Target, served: Target)
    requires !NativelyResolved(req) && ClientModel(req) != "" && !Unguarded(ts, ClientModel(req))
    requires claimant in ts && Claims(claimant, ClientModel(req))
    requires Decided(TableOf(ts), req) == Serve(served)
    ensures served in ts && Claims(served, ClientModel(req))
    ensures Dialects(ts, claimant.profiles[ClientModel(req)].model) != {} ==>
              served.profiles[ClientModel(req)] == claimant.profiles[ClientModel(req)]
  {
    var name := ClientModel(req);
    GuardedServes(ts, req, claimant, served);
    if d :| d in Dialects(ts, claimant.profiles[name].model) {
      DecisionsAgree(ts, name, served, Select(ts, name).via, claimant, d);
    }
  }

  /** A name that some target claims as a profile, and that no native route resolved, is served by a target that
      defines it, exactly unless it is unguarded and the handler for the empty model's dialect does not define it.
      When a claimant decides, that target's model and tier are the claimant's, exactly unless the name is unguarded
      and that handler does not define it with the empty model. */
  lemma ProfileStaysWithItsMapping(ts: seq<Target>, req: Request, claimant: Target, served: Target)
    requires !NativelyResolved(req) && ClientModel(req) != ""
    requires claimant in ts && Claims(claimant, ClientModel(req))
    requires Decided(TableOf(ts), req) == Serve(served)
    ensures served in ts && (Unguarded(ts, ClientModel(req)) ==> EmptyModelHandler(ts) == Some(served))
    ensures var name := ClientModel(req);
            Claims(served, name) <==>
            !(Unguarded(ts, name) && EmptyModelHandler(ts).Some? && !Claims(EmptyModelHandler(ts).value, name))
    ensures var name, handler := ClientModel(req), EmptyModelHandler(ts);
            Dialects(ts, claimant.profiles[name].model) != {} ==>
              (Claims(served, name) && served.profiles[name] == claimant.profiles[name] <==>
               !(Unguarded(ts, name) && handler.Some? && !DefinesEmpty(handler.value, name)))
  {
    var name := ClientModel(req);
    if Unguarded(ts, name) {
      UnguardedSelection(ts, name);
      assert Decided(TableOf(ts), req) == Answer(TableOf(ts).handlers, name, Select(ts, name), req);
      UnguardedServes(ts, name, served, req);
      if Dialects(ts, claimant.profiles[name].model) != {} && DefinesEmpty(served, name) {
        FirstViaIsDialect(ts, "");
        DecisionsAgree(ts, name, served, FirstVia(ts, ""), claimant, FirstVia(ts, ""));
      }
    } else {
      GuardedProfileStays(ts, req, claimant, served);
    }
  }

  predicate DefinesEmpty(t: Target, name: string) {
    Claims(t, name) && t.profiles[name].model == ""
  }

  lemma UnguardedServes(ts: seq<Target>, name: string, served: Target, req: Request)
    requires Select(ts, name).profileModel == "" && Select(ts, name).via == FirstVia(ts, "") != ""
    requires Answer(TableOf(ts).handlers, name, Select(ts, name), req) == Serve(served)
    ensures EmptyModelHandler(ts) == Some(served) && served in ts
  {
  }

  /** Two targets over which a profile without a target model, which only a caller of New can build, escapes. */
  predicate Escaping(ts: seq<Target>, name: string) {
    && |ts| == 2
    && ts[0] == Target(map[name := Profile("", "")], ModelMap(map["" := RESPONSES], false, true), ChatUpstream, 0)
    && ts[1] == Target(map[], ModelMap(map[], true, false), ResponsesUpstream, 1)
  }

  lemma EscapingHasNoConflict(ts: seq<Target>, name: string)
    requires Escaping(ts, name)
    ensures RouteConflict(ts, name).None?
  {
    assert ts[0] in ts && ts[1] in ts;
    assert Dialects(ts, "") == {RESPONSES} by {
      assert Explicit(ts[0], "") && !Explicit(ts[1], "");
    }
    var p := Profile("", "");
    assert Claimed(ts, name) == {p};
    assert Doubly(ts, {p}) == {};
    var d := Decision(RESPONSES, "", "");
    assert Decisions(ts, {p}) == {d};
    assert Pairs({d}) == {Key(d)} && Tiers({d}) == {""};
  }

  /** Its name is forwarded by a target that does not define it. */
  lemma EmptyTargetModelEscapes(ts: seq<Target>, name: string)
    requires Escaping(ts, name) && name != ""
    ensures Decided(TableOf(ts), Request(None, Some(name))) == Serve(ts[1]) && !Claims(ts[1], name)
  {
    EscapingHasNoConflict(ts, name);
    assert Picks(Claiming, ts, ts[0], name) && Picks(Deciding, ts, ts[0], name);
    assert ts[1..] == [ts[1]];
  }

  // ----- Messages-native names -----

  /** The profiles of the name whose target model some target maps to a dialect. */
  ghost function DecidingProfiles(ts: seq<Target>, name: string): set<Profile> {
    set p | p in Claimed(ts, name) && Dialects(ts, p.model) != {}
  }

  predicate IsNotFound(outcome: Outcome) {
    outcome.Refuse? && outcome.status == 404
  }

  /** A 404 follows the dialect that decided, and names the request's model. */
  lemma MessagesAreRefused(ts: seq<Target>, req: Request)
    ensures var name := ClientModel(req);
            IsNotFound(Decided(TableOf(ts), req)) <==>
              if NativelyResolved(req) then req.miss.value.via == MESSAGES
              else name != "" && RouteConflict(ts, name).None? && Select(ts, name).via == MESSAGES
    ensures IsNotFound(Decided(TableOf(ts), req)) ==> Decided(TableOf(ts), req).refusal.name == ClientModel(req)
  {
  }

  /** A claimed name is refused as messages-native exactly when the route can decide it, some claimant decides it, and
      every deciding claimant's target model is mapped to messages and to nothing else. */
  lemma ClaimedRefusedAsNativeExactlyWhen(ts: seq<Target>, req: Request)
    requires !NativelyResolved(req) && ClientModel(req) != "" && Claimed(ts, ClientModel(req)) != {}
    ensures var name := ClientModel(req);
            IsNotFound(Decided(TableOf(ts), req)) <==>
              && RouteConflict(ts, name).None?
              && DecidingProfiles(ts, name) != {}
              && forall p :: p in DecidingProfiles(ts, name) ==> Dialects(ts, p.model) == {MESSAGES}
    ensures IsNotFound(Decided(TableOf(ts), req)) ==>
              var name, refusal := ClientModel(req), Decided(TableOf(ts), req).refusal;
              forall p :: p in DecidingProfiles(ts, name) && p.model != "" ==>
                refusal.ProfileNative? && refusal.name == name && refusal.model == p.model
  {
    var name := ClientModel(req);
    if RouteConflict(ts, name).None? {
      MessagesAreRefused(ts, req);
      ClaimantFoundExactlyWhen(ts, name);
      ClaimedSelection(ts, name);
      var sel := Select(ts, name);
      if sel.via == "" {
        assert DecidingProfiles(ts, name) == {};
      } else {
        DecidersMapTo(ts, name, sel);
      }
    }
  }

  lemma ClaimantFoundExactlyWhen(ts: seq<Target>, name: string)
    ensures First(Claiming, false, ts, ts, name).Some? <==> Claimed(ts, name) != {}
  {
    var found := First(Claiming, false, ts, ts, name);
    if found.Some? {
      assert found.value.profiles[name] in Claimed(ts, name);
    }
    if Claimed(ts, name) != {} {
      var p :| p in Claimed(ts, name);
      var t :| t in ts && Claims(t, name) && t.profiles[name] == p;
      assert Picks(Claiming, ts, t, name);
    }
  }

  lemma DialectFoundExactlyWhen(ts: seq<Target>, model: string)
    ensures First(ByName, false, ts, ts, model).Some? <==> Dialects(ts, model) != {}
  {
    var found := First(ByName, false, ts, ts, model);
    if found.Some? {
      assert Via(found.value, model) in Dialects(ts, model);
    }
    if Dialects(ts, model) != {} {
      FirstViaIsDialect(ts, model);
    }
  }

  /** The deciders of a name without conflict map their model to the selected dialect and to nothing else. */
  lemma DecidersMapTo(ts: seq<Target>, name: string, sel: Selection)
    requires RouteConflict(ts, name).None?
    requires sel.target.Some? && sel.target.value in ts && Claims(sel.target.value, name)
    requires sel.profileModel == sel.target.value.profiles[name].model && sel.via in Dialects(ts, sel.profileModel)
    ensures sel.target.value.profiles[name] in DecidingProfiles(ts, name)
    ensures forall p :: p in DecidingProfiles(ts, name) ==>
              Dialects(ts, p.model) == {sel.via} && p.model == sel.profileModel
  {
    assert sel.target.value.profiles[name] in Claimed(ts, name);
    forall p | p in DecidingProfiles(ts, name)
      ensures Dialects(ts, p.model) == {sel.via} && p.model == sel.profileModel
    {
      var t :| t in ts && Claims(t, name) && t.profiles[name] == p;
      var e :| e in Dialects(ts, p.model);
      DecisionsAgree(ts, name, t, e, sel.target.value, sel.via);
      forall d | d in Dialects(ts, p.model)
        ensures d == sel.via
      {
        DecisionsAgree(ts, name, t, d, sel.target.value, sel.via);
      }
    }
  }

  /** A name nobody claims is refused as messages-native exactly when messages is its one explicit dialect. */
  lemma RawRefusedAsNativeExactlyWhen(ts: seq<Target>, req: Request)
    requires !NativelyResolved(req) && ClientModel(req) != "" && Claimed(ts, ClientModel(req)) == {}
    ensures IsNotFound(Decided(TableOf(ts), req)) <==> Dialects(ts, ClientModel(req)) == {MESSAGES}
  {
    var name := ClientModel(req);
    if RouteConflict(ts, name).None? {
      MessagesAreRefused(ts, req);
      ClaimantFoundExactlyWhen(ts, name);
      DialectFoundExactlyWhen(ts, name);
      if Dialects(ts, name) != {} {
        FirstViaIsDialect(ts, name);
        forall d | d in Dialects(ts, name)
          ensures d == FirstVia(ts, name)
        {
          AtMostOneMember(Dialects(ts, name), d, FirstVia(ts, name));
        }
        assert Dialects(ts, name) == {FirstVia(ts, name)};
      }
    }
  }
}
