/** Who serves a request on a route with several targets, or which refusal answers it, by what the targets declare. */
module DispatcherServes {
  import opened Prelude
  import opened Ordering
  import opened Dispatcher
  import opened DispatcherTheorems

  // ----- What the targets declare -----

  function FirstOf(ts: seq<Target>, upstream: Upstream): Option<Target> {
    if ts == [] then None else if ts[0].upstream == upstream then Some(ts[0]) else FirstOf(ts[1..], upstream)
  }

  lemma {:induction false} ServingIsFirstOf(all: seq<Target>, ts: seq<Target>, upstream: Upstream)
    ensures First(Serving(upstream), false, all, ts, "") == FirstOf(ts, upstream)
  {
    if ts != [] {
      ServingIsFirstOf(all, ts[1..], upstream);
    }
  }

  /** The target maps the model to that dialect. */
  predicate MapsTo(t: Target, model: string, dialect: string) {
    dialect != "" && model in t.models.exact && t.models.exact[model] == dialect
  }

  /** The target can forward the model: it has a mapping for it, or passes unmapped names on. */
  predicate Knows(t: Target, model: string) {
    model in t.models.exact || (t.models.allowIdentity && !t.models.requireExplicit)
  }

  /** Some target maps the model to the dialect. */
  ghost predicate Declares(ts: seq<Target>, model: string, dialect: string) {
    exists t :: t in ts && MapsTo(t, model, dialect)
  }

  lemma DeclaredIsDialect(ts: seq<Target>, model: string, dialect: string)
    ensures Declares(ts, model, dialect) <==> dialect in Dialects(ts, model)
  {
    if dialect in Dialects(ts, model) {
      var t :| t in ts && Explicit(t, model) && Via(t, model) == dialect;
      assert MapsTo(t, model, dialect);
    }
    if Declares(ts, model, dialect) {
      var t :| t in ts && MapsTo(t, model, dialect);
      assert Explicit(t, model) && Via(t, model) == dialect;
    }
  }

  /** No target defines the name as a profile. */
  predicate Unclaimed(ts: seq<Target>, name: string) {
    forall t :: t in ts ==> name !in t.profiles
  }

  lemma UnclaimedExactlyWhen(ts: seq<Target>, name: string)
    ensures Unclaimed(ts, name) <==> Claimed(ts, name) == {}
  {
    if t :| t in ts && name in t.profiles {
      assert t.profiles[name] in Claimed(ts, name);
    }
  }

  // ----- The request's name -----

  /** The native route left the decision to the dispatcher, and the model asked for is the one it read, or else the
      one in the body. */
  predicate AsksFor(req: Request, name: string) {
    match req.miss
    case None => name == (match req.body case Some(model) => model case None => "")
    case Some(miss) =>
      && miss.via == ""
      && name == if miss.model != "" then miss.model else match req.body case Some(model) => model case None => ""
  }

  lemma AsksForIsClientModel(req: Request, name: string)
    requires AsksFor(req, name)
    ensures !NativelyResolved(req) && ClientModel(req) == name
  {
  }

  // ----- Who serves -----

  /** The handler of last resort: chat before responses. */
  function Preferred(ts: seq<Target>): Outcome {
    match FirstOf(ts, ChatUpstream)
    case Some(t) => Serve(t)
    case None =>
      match FirstOf(ts, ResponsesUpstream)
      case Some(t) => Serve(t)
      case None => Refuse(500, NoHandler)
  }

  /** The handler of a dialect, if the route has one. */
  function HandlerOf(ts: seq<Target>, dialect: string): Option<Target> {
    if dialect == "chat" then FirstOf(ts, ChatUpstream)
    else if dialect == "responses" then FirstOf(ts, ResponsesUpstream)
    else None
  }

  function ServedBy(ts: seq<Target>, dialect: string): Outcome {
    match HandlerOf(ts, dialect)
    case Some(t) => Serve(t)
    case None => Preferred(ts)
  }

  lemma HandlersAreFirst(ts: seq<Target>)
    ensures TableOf(ts).handlers == Handlers(FirstOf(ts, ChatUpstream), FirstOf(ts, ResponsesUpstream))
  {
    ServingIsFirstOf(ts, ts, ChatUpstream);
    ServingIsFirstOf(ts, ts, ResponsesUpstream);
  }

  /** A request without a model is served by the first chat target, or else the first responses target. */
  lemma NamelessServed(ts: seq<Target>, req: Request)
    requires AsksFor(req, "")
    ensures Decided(TableOf(ts), req) == Preferred(ts)
  {
    HandlersAreFirst(ts);
  }

  /** A dialect that the native route resolved decides: its handler serves, or the preferred one when there is none;
      messages is refused. */
  lemma NativelyServed(ts: seq<Target>, req: Request)
    requires req.miss.Some? && req.miss.value.via != ""
    ensures req.miss.value.via != "messages" ==> Decided(TableOf(ts), req) == ServedBy(ts, req.miss.value.via)
    ensures req.miss.value.via == "messages" ==>
              Decided(TableOf(ts), req) ==
              Refuse(404, ModelNative(req.miss.value.model,
                                      if req.miss.value.native == "messages" then ByModelName
                                      else OtherPath(req.miss.value.native)))
  {
    HandlersAreFirst(ts);
  }

  /** A name no target maps to a dialect, or defines as a profile, is served by the preferred handler. */
  lemma UnmappedServed(ts: seq<Target>, req: Request, name: string)
    requires AsksFor(req, name) && name != "" && Unclaimed(ts, name)
    requires forall d :: !Declares(ts, name, d)
    ensures Decided(TableOf(ts), req) == Preferred(ts)
  {
    HandlersAreFirst(ts);
    UnclaimedExactlyWhen(ts, name);
    forall d
      ensures d !in Dialects(ts, name)
    {
      DeclaredIsDialect(ts, name, d);
    }
    assert Dialects(ts, name) == {};
    ClaimantFoundExactlyWhen(ts, name);
    DialectFoundExactlyWhen(ts, name);
  }

  /** What the refusal of a messages-native name advises. */
  function Advice(req: Request, profile: bool): Remedy {
    match req.miss
    case None => AddNativeRoute
    case Some(miss) =>
      if miss.native == "messages" then ByModelName else if profile then OtherPath("") else OtherPath(miss.native)
  }

  lemma PlainAnswer(ts: seq<Target>, name: string, sel: Selection, req: Request)
    requires sel.profileModel == "" && sel.via != ""
    ensures Answer(TableOf(ts).handlers, name, sel, req) ==
              if sel.via == "messages" then Refuse(404, ModelNative(name, Advice(req, false)))
              else ServedBy(ts, sel.via)
  {
    HandlersAreFirst(ts);
  }

  lemma OneDialect(ts: seq<Target>, name: string, dialect: string)
    requires Unclaimed(ts, name) && Declares(ts, name, dialect)
    requires forall d :: Declares(ts, name, d) ==> d == dialect
    ensures RouteConflict(ts, name).None?
    ensures Select(ts, name).via == dialect != "" && Select(ts, name).profileModel == ""
  {
    UnclaimedExactlyWhen(ts, name);
    ClaimantFoundExactlyWhen(ts, name);
    DialectFoundExactlyWhen(ts, name);
    DeclaredIsDialect(ts, name, dialect);
    FirstViaIsDialect(ts, name);
    forall d
      ensures d in Dialects(ts, name) <==> d == dialect
    {
      DeclaredIsDialect(ts, name, d);
    }
    assert Dialects(ts, name) == {dialect};
  }

  lemma TwoDialects(ts: seq<Target>, name: string, c: string, d: string)
    requires Unclaimed(ts, name) && Declares(ts, name, c) && Declares(ts, name, d) && c != d
    ensures RouteConflict(ts, name).Some?
    ensures RouteConflict(ts, name).value.RawConflict? && RouteConflict(ts, name).value.name == name
    ensures forall d :: d in RouteConflict(ts, name).value.dialects <==> Declares(ts, name, d)
  {
    UnclaimedExactlyWhen(ts, name);
    DeclaredIsDialect(ts, name, c);
    DeclaredIsDialect(ts, name, d);
    CardinalityMonotone({c, d}, Dialects(ts, name));
    forall d
      ensures d in RouteConflict(ts, name).value.dialects <==> Declares(ts, name, d)
    {
      DeclaredIsDialect(ts, name, d);
      assert d in Elements(RouteConflict(ts, name).value.dialects) <==> d in Dialects(ts, name);
    }
  }

  /** A name that is no profile and that the targets map to one dialect is served by the handler of that dialect, or
      the preferred one; to messages, it is refused; to several, the route is. */
  lemma MappedServed(ts: seq<Target>, req: Request, name: string, dialect: string)
    requires AsksFor(req, name) && name != "" && Unclaimed(ts, name) && Declares(ts, name, dialect)
    ensures var outcome := Decided(TableOf(ts), req);
            if exists d :: d != dialect && Declares(ts, name, d) then
              && outcome.Refuse? && outcome.status == 500 && outcome.refusal.RawConflict?
              && outcome.refusal.name == name
              && forall d :: d in outcome.refusal.dialects <==> Declares(ts, name, d)
            else if dialect == "messages" then outcome == Refuse(404, ModelNative(name, Advice(req, false)))
            else outcome == ServedBy(ts, dialect)
  {
    AsksForIsClientModel(req, name);
    if d :| d != dialect && Declares(ts, name, d) {
      TwoDialects(ts, name, dialect, d);
    } else {
      OneDialect(ts, name, dialect);
      PlainAnswer(ts, name, Select(ts, name), req);
      AnswersSelection(ts, req, name);
    }
  }

  lemma AnswersSelection(ts: seq<Target>, req: Request, name: string)
    requires AsksFor(req, name) && name != "" && RouteConflict(ts, name).None?
    ensures Decided(TableOf(ts), req) == Answer(TableOf(ts).handlers, name, Select(ts, name), req)
  {
    AsksForIsClientModel(req, name);
  }

  // ----- Profiles -----

  /** The target defines the profile, and if so demanded can forward its model, and is a chat target. */
  predicate Has(t: Target, name: string, knows: bool, chat: bool) {
    && name in t.profiles
    && (knows ==> Knows(t, t.profiles[name].model))
    && (chat ==> t.upstream.ChatUpstream?)
  }

  ghost predicate AnyHas(ts: seq<Target>, name: string, knows: bool, chat: bool) {
    exists t :: t in ts && Has(t, name, knows, chat)
  }

  /** The target is the first of its kind. */
  ghost predicate IsFirst(ts: seq<Target>, t: Target, name: string, knows: bool, chat: bool) {
    exists i :: 0 <= i < |ts| && ts[i] == t && Has(t, name, knows, chat)
                && forall j :: 0 <= j < i ==> !Has(ts[j], name, knows, chat)
  }

  lemma {:induction false} FirstIsFirst(all: seq<Target>, ts: seq<Target>, name: string, knows: bool, chat: bool)
    ensures match First(if knows then Mapping else Claiming, chat, all, ts, name)
            case Some(t) => IsFirst(ts, t, name, knows, chat)
            case None => !AnyHas(ts, name, knows, chat)
  {
    var pick := if knows then Mapping else Claiming;
    if ts != [] {
      assert Has(ts[0], name, knows, chat) <==>
             Picks(pick, all, ts[0], name) && (chat ==> ts[0].upstream.ChatUpstream?);
      if !Has(ts[0], name, knows, chat) {
        FirstIsFirst(all, ts[1..], name, knows, chat);
        if First(pick, chat, all, ts, name).Some? {
          var t := First(pick, chat, all, ts, name).value;
          var i :| 0 <= i < |ts[1..]| && ts[1..][i] == t && Has(t, name, knows, chat)
                   && forall j :: 0 <= j < i ==> !Has(ts[1..][j], name, knows, chat);
          assert ts[i + 1] == t;
          forall j | 0 <= j < i + 1
            ensures !Has(ts[j], name, knows, chat)
          {
            assert j > 0 ==> ts[j] == ts[1..][j - 1];
          }
        }
      }
    }
  }

  lemma UndecidedFallsBack(ts: seq<Target>, req: Request, name: string)
    requires AsksFor(req, name) && name != "" && !Unclaimed(ts, name)
    requires forall t, d :: t in ts && name in t.profiles ==> !Declares(ts, t.profiles[name].model, d)
    ensures First(Claiming, false, ts, ts, name).Some?
    ensures Decided(TableOf(ts), req) == Serve(Fallback(ts, name))
  {
    UndecidedHasNoConflict(ts, name);
    ClaimantFoundExactlyWhen(ts, name);
    UnclaimedExactlyWhen(ts, name);
    ClaimedSelection(ts, name);
    var sel := Select(ts, name);
    if sel.via != "" {
      DeclaredIsDialect(ts, sel.profileModel, sel.via);
    }
  }

  /** A profile name that no claimant's target model settles: a chat claimant that can forward the model serves, else
      any claimant that can, else a chat claimant, else any, and always the first of its kind. */
  lemma UndecidedProfileServed(ts: seq<Target>, req: Request, name: string)
    requires AsksFor(req, name) && name != "" && !Unclaimed(ts, name)
    requires forall t, d :: t in ts && name in t.profiles ==> !Declares(ts, t.profiles[name].model, d)
    ensures var outcome := Decided(TableOf(ts), req);
            && outcome.Serve?
            && if AnyHas(ts, name, true, true) then IsFirst(ts, outcome.target, name, true, true)
               else if AnyHas(ts, name, true, false) then IsFirst(ts, outcome.target, name, true, false)
               else if AnyHas(ts, name, false, true) then IsFirst(ts, outcome.target, name, false, true)
               else IsFirst(ts, outcome.target, name, false, false)
  {
    UndecidedFallsBack(ts, req, name);
    FallbackIsFirst(ts, name);
  }

  lemma FallbackIsFirst(ts: seq<Target>, name: string)
    requires First(Claiming, false, ts, ts, name).Some?
    ensures var t := Fallback(ts, name);
            if AnyHas(ts, name, true, true) then IsFirst(ts, t, name, true, true)
            else if AnyHas(ts, name, true, false) then IsFirst(ts, t, name, true, false)
            else if AnyHas(ts, name, false, true) then IsFirst(ts, t, name, false, true)
            else IsFirst(ts, t, name, false, false)
  {
    FirstIsFirst(ts, ts, name, true, true);
    FirstIsFirst(ts, ts, name, true, false);
    FirstIsFirst(ts, ts, name, false, true);
    FirstIsFirst(ts, ts, name, false, false);
    FirstHasIt(ts, name);
  }

  lemma FirstHasIt(ts: seq<Target>, name: string)
    ensures forall t, knows, chat :: IsFirst(ts, t, name, knows, chat) ==> AnyHas(ts, name, knows, chat)
  {
    forall t, knows, chat | IsFirst(ts, t, name, knows, chat)
      ensures AnyHas(ts, name, knows, chat)
    {
      assert t in ts && Has(t, name, knows, chat);
    }
  }

  lemma UndecidedHasNoConflict(ts: seq<Target>, name: string)
    requires !Unclaimed(ts, name)
    requires forall t, d :: t in ts && name in t.profiles ==> !Declares(ts, t.profiles[name].model, d)
    ensures RouteConflict(ts, name).None?
  {
    UnclaimedExactlyWhen(ts, name);
    var profiles := Claimed(ts, name);
    forall p | p in profiles
      ensures Dialects(ts, p.model) == {}
    {
      forall d
        ensures d !in Dialects(ts, p.model)
      {
        DeclaredIsDialect(ts, p.model, d);
      }
    }
    assert Doubly(ts, profiles) == {} && Decisions(ts, profiles) == {};
    assert Pairs({}) == {} && Tiers({}) == {};
  }

  /** The handler may serve the profile: it defines it with that model, can forward the model, and maps it to no other
      dialect. */
  ghost predicate Fits(t: Target, name: string, model: string, dialect: string) {
    && name in t.profiles && t.profiles[name].model == model
    && Knows(t, model)
    && forall d :: MapsTo(t, model, d) ==> d == dialect
  }

  /** Why it may not. */
  function Misfit(t: Target, name: string, model: string, dialect: string): Refusal {
    if !(name in t.profiles && t.profiles[name].model == model) then ProfileUndefined(name, model, dialect)
    else if !Knows(t, model) then TargetUnmapped(name, model, dialect)
    else TargetElsewhere(name, model, dialect)
  }

  lemma ProfileAnswer(ts: seq<Target>, name: string, sel: Selection, req: Request)
    requires sel.profileModel != "" && (sel.via == "chat" || sel.via == "responses")
    ensures Answer(TableOf(ts).handlers, name, sel, req) ==
              match HandlerOf(ts, sel.via)
              case None => Refuse(500, NoMapping(name, sel.profileModel, sel.via))
              case Some(t) =>
                if Fits(t, name, sel.profileModel, sel.via) then Serve(t)
                else Refuse(500, Misfit(t, name, sel.profileModel, sel.via))
  {
    HandlersAreFirst(ts);
    var handler := HandlerOf(ts, sel.via);
    if handler.Some? && Explicit(handler.value, sel.profileModel) {
      assert MapsTo(handler.value, sel.profileModel, Via(handler.value, sel.profileModel));
    }
  }

  lemma DecidedSelection(ts: seq<Target>, name: string, claimant: Target, dialect: string)
    requires claimant in ts && name in claimant.profiles
    requires RouteConflict(ts, name).None? && Declares(ts, claimant.profiles[name].model, dialect)
    ensures Select(ts, name).via == dialect && Select(ts, name).profileModel == claimant.profiles[name].model
  {
    DeclaredIsDialect(ts, claimant.profiles[name].model, dialect);
    assert Picks(Claiming, ts, claimant, name);
    ClaimedSelection(ts, name);
    var sel := Select(ts, name);
    DecisionsAgree(ts, name, claimant, dialect, sel.target.value, sel.via);
  }

  /** A profile name that some claimant settles, without a conflict: the handler of the declared dialect serves exactly
      if it fits, and otherwise a 500 names the profile, its model, the dialect and what is amiss. */
  lemma DecidedProfileServed(ts: seq<Target>, req: Request, name: string, claimant: Target, dialect: string)
    requires AsksFor(req, name) && name != "" && claimant in ts && name in claimant.profiles
    requires RouteConflict(ts, name).None? && Declares(ts, claimant.profiles[name].model, dialect)
    requires claimant.profiles[name].model != "" && (dialect == "chat" || dialect == "responses")
    ensures var model := claimant.profiles[name].model;
            Decided(TableOf(ts), req) ==
            match HandlerOf(ts, dialect)
            case None => Refuse(500, NoMapping(name, model, dialect))
            case Some(t) =>
              if Fits(t, name, model, dialect) then Serve(t) else Refuse(500, Misfit(t, name, model, dialect))
  {
    DecidedSelection(ts, name, claimant, dialect);
    ProfileAnswer(ts, name, Select(ts, name), req);
    AnswersSelection(ts, req, name);
  }

  /** A profile name cannot be decided exactly when some claimant's model is mapped to two dialects, or two settled
      claimants differ in dialect, target model or reasoning tier. */
  lemma ConflictExactlyWhen(ts: seq<Target>, name: string)
    requires !Unclaimed(ts, name)
    ensures RouteConflict(ts, name).Some? <==>
              exists t, u, d, e ::
                && t in ts && u in ts && name in t.profiles && name in u.profiles
                && Declares(ts, t.profiles[name].model, d) && Declares(ts, u.profiles[name].model, e)
                && (d != e || t.profiles[name] != u.profiles[name])
  {
    if RouteConflict(ts, name).None? {
      forall t, u, d, e | t in ts && u in ts && name in t.profiles && name in u.profiles
                          && Declares(ts, t.profiles[name].model, d) && Declares(ts, u.profiles[name].model, e)
        ensures d == e && t.profiles[name] == u.profiles[name]
      {
        DeclaredIsDialect(ts, t.profiles[name].model, d);
        DeclaredIsDialect(ts, u.profiles[name].model, e);
        DecisionsAgree(ts, name, t, d, u, e);
      }
    } else {
      ConflictHasWitness(ts, name);
    }
  }

  lemma TwoMembers<T>(s: set<T>) returns (x: T, y: T)
    requires |s| > 1
    ensures x in s && y in s && x != y
  {
    x :| x in s;
    assert |s - {x}| > 0;
    y :| y in s - {x};
  }

  lemma ConflictHasWitness(ts: seq<Target>, name: string)
    requires !Unclaimed(ts, name) && RouteConflict(ts, name).Some?
    ensures exists t, u, d, e ::
              && t in ts && u in ts && name in t.profiles && name in u.profiles
              && Declares(ts, t.profiles[name].model, d) && Declares(ts, u.profiles[name].model, e)
              && (d != e || t.profiles[name] != u.profiles[name])
  {
    UnclaimedExactlyWhen(ts, name);
    var profiles := Claimed(ts, name);
    if Doubly(ts, profiles) != {} {
      var model :| model in Doubly(ts, profiles);
      var p :| p in profiles && |Dialects(ts, p.model)| > 1 && p.model == model;
      var d, e := TwoMembers(Dialects(ts, p.model));
      SettledClaim(ts, name, p, d);
      SettledClaim(ts, name, p, e);
    } else {
      var decisions := Decisions(ts, profiles);
      var a, b := ConflictingDecisions(name, decisions);
      var p, q := Profile(a.model, a.tier), Profile(b.model, b.tier);
      assert p in profiles && a.dialect in Dialects(ts, p.model);
      assert q in profiles && b.dialect in Dialects(ts, q.model);
      SettledClaim(ts, name, p, a.dialect);
      SettledClaim(ts, name, q, b.dialect);
    }
  }

  lemma ConflictingDecisions(name: string, decisions: set<Decision>) returns (a: Decision, b: Decision)
    requires DecisionConflict(name, decisions).Some?
    ensures a in decisions && b in decisions && a != b
  {
    if |Pairs(decisions)| > 1 {
      var x, y := TwoMembers(Pairs(decisions));
      a :| a in decisions && Key(a) == x;
      b :| b in decisions && Key(b) == y;
    } else {
      var x, y := TwoMembers(Tiers(decisions));
      a :| a in decisions && a.tier == x;
      b :| b in decisions && b.tier == y;
    }
  }

  lemma SettledClaim(ts: seq<Target>, name: string, p: Profile, d: string)
    requires p in Claimed(ts, name) && d in Dialects(ts, p.model)
    ensures exists t :: t in ts && name in t.profiles && t.profiles[name] == p && Declares(ts, p.model, d)
  {
    DeclaredIsDialect(ts, p.model, d);
    var t :| t in ts && Claims(t, name) && t.profiles[name] == p;
  }

  // ----- Refusals of a profile name in detail -----

  /** A profile name whose settled model is mapped to messages is refused with a 404 that names both. */
  lemma NativeProfileRefused(ts: seq<Target>, req: Request, name: string, claimant: Target)
    requires AsksFor(req, name) && name != "" && claimant in ts && name in claimant.profiles
    requires RouteConflict(ts, name).None? && Declares(ts, claimant.profiles[name].model, "messages")
    requires claimant.profiles[name].model != ""
    ensures Decided(TableOf(ts), req) ==
              Refuse(404, ProfileNative(name, claimant.profiles[name].model, Advice(req, true)))
  {
    DecidedSelection(ts, name, claimant, "messages");
    AnswersSelection(ts, req, name);
    HandlersAreFirst(ts);
  }

  /** Some claimant's target model is the model, and two dialects are declared for it. */
  ghost predicate Twofold(ts: seq<Target>, name: string, model: string) {
    exists t, c, d :: t in ts && name in t.profiles && t.profiles[name].model == model
                      && c != d && Declares(ts, model, c) && Declares(ts, model, d)
  }

  lemma TwofoldIsDoubly(ts: seq<Target>, name: string, model: string)
    ensures Twofold(ts, name, model) <==> model in Doubly(ts, Claimed(ts, name))
  {
    if Twofold(ts, name, model) {
      var t, c, d :| t in ts && name in t.profiles && t.profiles[name].model == model
                     && c != d && Declares(ts, model, c) && Declares(ts, model, d);
      DeclaredIsDialect(ts, model, c);
      DeclaredIsDialect(ts, model, d);
      CardinalityMonotone({c, d}, Dialects(ts, model));
      assert t.profiles[name] in Claimed(ts, name);
    }
    if model in Doubly(ts, Claimed(ts, name)) {
      var p :| p in Claimed(ts, name) && |Dialects(ts, p.model)| > 1 && p.model == model;
      var t :| t in ts && Claims(t, name) && t.profiles[name] == p;
      var c, d := TwoMembers(Dialects(ts, model));
      DeclaredIsDialect(ts, model, c);
      DeclaredIsDialect(ts, model, d);
    }
  }

  lemma {:induction false} ConflictListsDeclare(ts: seq<Target>, models: seq<string>, i: nat, d: string)
    requires i < |models|
    ensures |ConflictLists(ts, models)| == |models|
    ensures d in ConflictLists(ts, models)[i] <==> Declares(ts, models[i], d)
  {
    var last := |models| - 1;
    if i < last {
      ConflictListsDeclare(ts, models[..last], i, d);
    } else {
      ListsHaveModels(ts, models[..last]);
      DeclaredIsDialect(ts, models[i], d);
      assert d in Elements(DialectList(ts, models[i])) <==> d in Dialects(ts, models[i]);
    }
    ListsHaveModels(ts, models);
  }

  lemma {:induction false} ListsHaveModels(ts: seq<Target>, models: seq<string>)
    ensures |ConflictLists(ts, models)| == |models|
  {
    if models != [] {
      ListsHaveModels(ts, models[..|models| - 1]);
    }
  }

  lemma TwofoldListed(ts: seq<Target>, name: string, models: seq<string>)
    requires Elements(models) == Doubly(ts, Claimed(ts, name))
    ensures forall model :: model in models <==> Twofold(ts, name, model)
  {
    forall model
      ensures model in models <==> Twofold(ts, name, model)
    {
      TwofoldIsDoubly(ts, name, model);
      assert model in Elements(models) <==> model in models;
    }
  }

  lemma ListsDeclare(ts: seq<Target>, models: seq<string>)
    ensures |ConflictLists(ts, models)| == |models|
    ensures forall i, d :: 0 <= i < |models| ==> (d in ConflictLists(ts, models)[i] <==> Declares(ts, models[i], d))
  {
    ListsHaveModels(ts, models);
    forall i, d | 0 <= i < |models|
      ensures d in ConflictLists(ts, models)[i] <==> Declares(ts, models[i], d)
    {
      ConflictListsDeclare(ts, models, i, d);
    }
  }

  /** The refusal of a name with a doubly mapped target model lists every such model, each with every dialect declared
      for it. */
  lemma TwofoldRefusal(ts: seq<Target>, name: string, model: string)
    requires Twofold(ts, name, model)
    ensures RouteConflict(ts, name).Some? && RouteConflict(ts, name).value.DoublyMapped?
    ensures var r := RouteConflict(ts, name).value;
            && r.name == name && |r.conflicts| == |r.models|
            && (forall model :: model in r.models <==> Twofold(ts, name, model))
            && (forall i, d :: 0 <= i < |r.models| ==> (d in r.conflicts[i] <==> Declares(ts, r.models[i], d)))
  {
    TwofoldIsDoubly(ts, name, model);
    var r := DoublyRefusal(ts, name, Doubly(ts, Claimed(ts, name)));
    assert RouteConflict(ts, name) == Some(r);
    TwofoldListed(ts, name, r.models);
    ListsDeclare(ts, r.models);
  }

  /** Some claimant of the name has the profile, and a dialect is declared for its model. */
  ghost predicate Settles(ts: seq<Target>, name: string, p: Profile, dialect: string) {
    exists t :: t in ts && name in t.profiles && t.profiles[name] == p && Declares(ts, p.model, dialect)
  }

  lemma SettledIsDecision(ts: seq<Target>, name: string, p: Profile, d: string)
    requires forall model :: !Twofold(ts, name, model)
    ensures Settles(ts, name, p, d) <==> Decision(d, p.model, p.tier) in Decisions(ts, Claimed(ts, name))
  {
    DeclaredIsDialect(ts, p.model, d);
    if Settles(ts, name, p, d) {
      var t :| t in ts && name in t.profiles && t.profiles[name] == p;
      assert p in Claimed(ts, name);
      TwofoldIsDoubly(ts, name, p.model);
    }
    if Decision(d, p.model, p.tier) in Decisions(ts, Claimed(ts, name)) {
      var q, e :| q in Claimed(ts, name) && e in Dialects(ts, q.model)
                  && Decision(e, q.model, q.tier) == Decision(d, p.model, p.tier);
      assert q == p && e == d;
      var t :| t in ts && Claims(t, name) && t.profiles[name] == p;
    }
  }

  /** Without such a model, claimants settled in different dialects or models are all listed. */
  lemma DifferentDecisionsListed(ts: seq<Target>, name: string, r: Refusal)
    requires RouteConflict(ts, name) == Some(r) && !Unclaimed(ts, name) && forall model :: !Twofold(ts, name, model)
    requires r.DecidedDifferently?
    ensures r.name == name
    ensures forall d, m :: (d, m) in r.pairs <==> exists tier :: Settles(ts, name, Profile(m, tier), d)
  {
    ConflictIsByDecisions(ts, name);
    forall d, m
      ensures (d, m) in r.pairs <==> exists tier :: Settles(ts, name, Profile(m, tier), d)
    {
      PairsAreSettled(ts, name, d, m);
      assert (d, m) in Elements(r.pairs) <==> (d, m) in r.pairs;
    }
  }

  /** Claimants that agree in both but not in the tier are refused by their model and all their tiers, an empty one as
      "none". */
  lemma DifferentTiersListed(ts: seq<Target>, name: string, r: Refusal)
    requires RouteConflict(ts, name) == Some(r) && !Unclaimed(ts, name) && forall model :: !Twofold(ts, name, model)
    requires r.ConflictingTiers?
    ensures r.name == name
    ensures forall p, d :: Settles(ts, name, p, d) ==>
              p.model == r.model && (if p.tier == "" then "none" else p.tier) in r.tiers
  {
    ConflictIsByDecisions(ts, name);
    forall p, d | Settles(ts, name, p, d)
      ensures p.model == r.model && (if p.tier == "" then "none" else p.tier) in r.tiers
    {
      SettledIsDecision(ts, name, p, d);
      TierIsListed(name, Decisions(ts, Claimed(ts, name)), Decision(d, p.model, p.tier));
    }
  }

  lemma ConflictIsByDecisions(ts: seq<Target>, name: string)
    requires !Unclaimed(ts, name) && forall model :: !Twofold(ts, name, model)
    ensures RouteConflict(ts, name) == DecisionConflict(name, Decisions(ts, Claimed(ts, name)))
    ensures RouteConflict(ts, name).Some? ==>
              RouteConflict(ts, name).value.DecidedDifferently? || RouteConflict(ts, name).value.ConflictingTiers?
  {
    NoTwofoldNoDoubly(ts, name);
    UnclaimedExactlyWhen(ts, name);
  }

  lemma NoTwofoldNoDoubly(ts: seq<Target>, name: string)
    requires forall model :: !Twofold(ts, name, model)
    ensures Doubly(ts, Claimed(ts, name)) == {}
  {
    if model :| model in Doubly(ts, Claimed(ts, name)) {
      TwofoldIsDoubly(ts, name, model);
    }
  }

  lemma PairsAreSettled(ts: seq<Target>, name: string, d: string, m: string)
    requires forall model :: !Twofold(ts, name, model)
    ensures (d, m) in Pairs(Decisions(ts, Claimed(ts, name))) <==>
            exists tier :: Settles(ts, name, Profile(m, tier), d)
  {
    var decisions := Decisions(ts, Claimed(ts, name));
    if (d, m) in Pairs(decisions) {
      var x :| x in decisions && Key(x) == (d, m);
      SettledIsDecision(ts, name, Profile(m, x.tier), d);
    }
    if tier :| Settles(ts, name, Profile(m, tier), d) {
      SettledIsDecision(ts, name, Profile(m, tier), d);
      assert Key(Decision(d, m, tier)) in Pairs(decisions);
    }
  }

  lemma TierIsListed(name: string, decisions: set<Decision>, x: Decision)
    requires DecisionConflict(name, decisions).Some? && DecisionConflict(name, decisions).value.ConflictingTiers?
    requires x in decisions
    ensures var r := DecisionConflict(name, decisions).value;
            x.model == r.model && (if x.tier == "" then "none" else x.tier) in r.tiers && |r.tiers| > 1
  {
    StringOrder();
    PairOrder();
    var pairs, tiers := Listing(PairLe, Pairs(decisions)), Listing(StringLe, Tiers(decisions));
    assert pairs[0] in Elements(pairs) && Key(x) in Pairs(decisions);
    AtMostOneMember(Pairs(decisions), pairs[0], Key(x));
    assert x.tier in Elements(tiers);
    var i :| 0 <= i < |tiers| && tiers[i] == x.tier;
    assert NameTiers(tiers)[i] == if x.tier == "" then "none" else x.tier;
  }
}
