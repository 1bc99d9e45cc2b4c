/** The multi-target transcode dispatcher: internal/proxy/transcodedispatcher.go, with the two resolutions of
    internal/transcode/models.go it rests on.

    A refusal is a constructor per message format with the values the format quotes; a handler is named by its number.
  */
module Dispatcher {
  import opened Prelude
  import opened Ordering

  const RESPONSES := "responses"
  const MESSAGES := "messages"
  const CHAT := "chat"

  datatype Upstream = ChatUpstream | ResponsesUpstream | MessagesUpstream

  datatype Profile = Profile(model: string, tier: string)

  /** exact maps a client model to the dialect (Via) of its mapping, empty when it has none. */
  datatype ModelMap = ModelMap(exact: map<string, string>, allowIdentity: bool, requireExplicit: bool)

  datatype Target = Target(profiles: map<string, Profile>, models: ModelMap, upstream: Upstream, handler: nat)

  /** ModelMap.Resolve as far as dispatch reads it: the Via, or None for the error. */
  function Resolve(m: ModelMap, model: string): Option<string> {
    if model in m.exact then Some(m.exact[model])
    else if m.allowIdentity && !m.requireExplicit then Some("")
    else None
  }

  predicate Claims(t: Target, name: string) {
    name in t.profiles
  }

  predicate Explicit(t: Target, model: string) {
    Resolve(t.models, model).Some? && Resolve(t.models, model).value != ""
  }

  function Via(t: Target, model: string): string
    requires Explicit(t, model)
  {
    Resolve(t.models, model).value
  }

  // ----- Refusals and outcomes -----

  datatype Refusal =
    | DoublyMapped(name: string, models: seq<string>, conflicts: seq<seq<string>>)
    | RawConflict(name: string, dialects: seq<string>)
    | DecidedDifferently(name: string, pairs: seq<(string, string)>)
    | ConflictingTiers(name: string, model: string, tiers: seq<string>)
    | NoMapping(name: string, model: string, via: string)
    | ProfileUndefined(name: string, model: string, via: string)
    | TargetUnmapped(name: string, model: string, via: string)
    | TargetElsewhere(name: string, model: string, via: string)
    | ProfileNative(name: string, model: string, remedy: Remedy)
    | ModelNative(name: string, remedy: Remedy)
    | NoHandler

  datatype Remedy = AddNativeRoute | ByModelName | OtherPath(native: string)

  datatype Outcome = Serve(target: Target) | Refuse(status: int, refusal: Refusal)

  // ----- Explicit dialects -----

  ghost function Dialects(ts: seq<Target>, model: string): set<string> {
    set t | t in ts && Explicit(t, model) :: Via(t, model)
  }

  ghost function DialectList(ts: seq<Target>, model: string): seq<string> {
    StringOrder();
    Listing(StringLe, Dialects(ts, model))
  }

  lemma DialectsOfOneMore(ts: seq<Target>, t: Target, model: string)
    ensures Dialects(ts + [t], model) == Dialects(ts, model) + if Explicit(t, model) then {Via(t, model)} else {}
  {
    assert forall u :: u in ts + [t] <==> u in ts || u == t;
  }

  method ExplicitDialects(ts: seq<Target>, model: string) returns (dialects: seq<string>)
    ensures dialects == DialectList(ts, model)
    ensures |dialects| == |Dialects(ts, model)| && Elements(dialects) == Dialects(ts, model)
  {
    dialects := [];
    StringOrder();
    for i := 0 to |ts|
      invariant Distinct(dialects) && Elements(dialects) == Dialects(ts[..i], model)
    {
      assert ts[..i + 1] == ts[..i] + [ts[i]];
      DialectsOfOneMore(ts[..i], ts[i], model);
      var via := Resolve(ts[i].models, model);
      if via.Some? && via.value != "" {
        if via.value !in dialects {
          ElementsOfConcat(dialects, [via.value]);
          dialects := dialects + [via.value];
        } else {
          assert via.value in Elements(dialects);
        }
      }
    }
    assert ts[..|ts|] == ts;
    SortLists(StringLe, dialects);
    dialects := Sort(StringLe, dialects);
  }

  // ----- Route conflicts -----

  datatype Decision = Decision(dialect: string, model: string, tier: string)

  ghost function Claimed(ts: seq<Target>, name: string): set<Profile> {
    set t | t in ts && Claims(t, name) :: t.profiles[name]
  }

  /** The target models of the profile that carry more than one explicit dialect. */
  ghost function Doubly(ts: seq<Target>, profiles: set<Profile>): set<string> {
    set p | p in profiles && |Dialects(ts, p.model)| > 1 :: p.model
  }

  ghost function Decisions(ts: seq<Target>, profiles: set<Profile>): set<Decision> {
    set p, d | p in profiles && |Dialects(ts, p.model)| <= 1 && d in Dialects(ts, p.model) ::
      Decision(d, p.model, p.tier)
  }

  function Key(d: Decision): (string, string) {
    (d.dialect, d.model)
  }

  ghost function Pairs(decisions: set<Decision>): set<(string, string)> {
    set d | d in decisions :: Key(d)
  }

  ghost function Tiers(decisions: set<Decision>): set<string> {
    set d | d in decisions :: d.tier
  }

  function NameTiers(tiers: seq<string>): seq<string> {
    seq(|tiers|, i requires 0 <= i < |tiers| => if tiers[i] == "" then "none" else tiers[i])
  }

  ghost function ConflictLists(ts: seq<Target>, models: seq<string>): seq<seq<string>> {
    if models == [] then [] else ConflictLists(ts, models[..|models| - 1]) + [DialectList(ts, models[|models| - 1])]
  }

  ghost function DoublyRefusal(ts: seq<Target>, name: string, doubly: set<string>): Refusal {
    StringOrder();
    var models := Listing(StringLe, doubly);
    DoublyMapped(name, models, ConflictLists(ts, models))
  }

  /** The decisions of the claimants when none of their models is doubly mapped. */
  ghost function DecisionConflict(name: string, decisions: set<Decision>): Option<Refusal> {
    StringOrder();
    PairOrder();
    if |Pairs(decisions)| > 1 then Some(DecidedDifferently(name, Listing(PairLe, Pairs(decisions))))
    else if |Tiers(decisions)| > 1 && |Pairs(decisions)| == 1 then
      var model := Listing(PairLe, Pairs(decisions))[0].1;
      Some(ConflictingTiers(name, model, NameTiers(Listing(StringLe, Tiers(decisions)))))
    else None
  }

  /** routeConflict, by the sets of what the claimants declare: None when the route can decide the name. */
  ghost function RouteConflict(ts: seq<Target>, name: string): Option<Refusal> {
    var profiles := Claimed(ts, name);
    if profiles == {} then
      if |Dialects(ts, name)| > 1 then Some(RawConflict(name, DialectList(ts, name))) else None
    else if Doubly(ts, profiles) != {} then Some(DoublyRefusal(ts, name, Doubly(ts, profiles)))
    else DecisionConflict(name, Decisions(ts, profiles))
  }

  /** The claims loop of routeConflict. */
  method CollectDecisions(ts: seq<Target>, name: string)
    returns (claimed: bool, doubly: seq<string>, decisions: seq<Decision>)
    ensures claimed <==> Claimed(ts, name) != {}
    ensures Distinct(doubly) && Elements(doubly) == Doubly(ts, Claimed(ts, name))
    ensures Elements(decisions) == Decisions(ts, Claimed(ts, name))
  {
    claimed, doubly, decisions := false, [], [];
    for i := 0 to |ts|
      invariant claimed <==> Claimed(ts[..i], name) != {}
      invariant Distinct(doubly) && Elements(doubly) == Doubly(ts, Claimed(ts[..i], name))
      invariant Elements(decisions) == Decisions(ts, Claimed(ts[..i], name))
    {
      assert ts[..i + 1] == ts[..i] + [ts[i]];
      if Claims(ts[i], name) {
        var p := ts[i].profiles[name];
        assert Claimed(ts[..i + 1], name) == Claimed(ts[..i], name) + {p};
        claimed := true;
        var dialects := ExplicitDialects(ts, p.model);
        doubly, decisions := AddClaim(ts, Claimed(ts[..i], name), p, dialects, doubly, decisions);
      } else {
        assert Claimed(ts[..i + 1], name) == Claimed(ts[..i], name);
      }
    }
    assert ts[..|ts|] == ts;
  }

  method AddClaim(ts: seq<Target>, ghost before: set<Profile>, p: Profile, dialects: seq<string>, doubly: seq<string>,
                  decisions: seq<Decision>) returns (models: seq<string>, more: seq<Decision>)
    requires Elements(dialects) == Dialects(ts, p.model) && |dialects| == |Dialects(ts, p.model)|
    requires Distinct(doubly) && Elements(doubly) == Doubly(ts, before)
    requires Elements(decisions) == Decisions(ts, before)
    ensures Distinct(models) && Elements(models) == Doubly(ts, before + {p})
    ensures Elements(more) == Decisions(ts, before + {p})
  {
    models, more := doubly, decisions;
    if |dialects| > 1 {
      assert Doubly(ts, before + {p}) == Doubly(ts, before) + {p.model};
      assert Decisions(ts, before + {p}) == Decisions(ts, before);
      if p.model !in doubly {
        ElementsOfConcat(doubly, [p.model]);
        models := doubly + [p.model];
      } else {
        assert p.model in Elements(doubly);
      }
      return;
    }
    assert Doubly(ts, before + {p}) == Doubly(ts, before);
    if dialects != [] {
      assert dialects[0] in Elements(dialects);
      assert Dialects(ts, p.model) == {dialects[0]} by {
        assert forall d :: d in Elements(dialects) ==> d == dialects[0];
      }
      assert Decisions(ts, before + {p}) == Decisions(ts, before) + {Decision(dialects[0], p.model, p.tier)};
      ElementsOfConcat(decisions, [Decision(dialects[0], p.model, p.tier)]);
      more := decisions + [Decision(dialects[0], p.model, p.tier)];
    } else {
      EmptyElements(dialects);
      assert Decisions(ts, before + {p}) == Decisions(ts, before);
    }
  }

  predicate DecisionLe(a: Decision, b: Decision) {
    PairLe(Key(a), Key(b))
  }

  /** The pairs and tiers of the first i sorted decisions. */
  ghost predicate PairsScanned(decisions: seq<Decision>, i: nat, pairs: seq<(string, string)>)
    requires i <= |decisions|
  {
    && Listed(PairLe, pairs)
    && Elements(pairs) == Pairs(Elements(decisions[..i]))
    && (if i == 0 then pairs == [] else pairs != [] && pairs[|pairs| - 1] == Key(decisions[i - 1]))
  }

  ghost predicate TiersScanned(decisions: seq<Decision>, i: nat, tiers: seq<string>)
    requires i <= |decisions|
  {
    Distinct(tiers) && Elements(tiers) == Tiers(Elements(decisions[..i]))
  }

  /** The scan over the sorted decisions: the distinct pairs in order, and the tiers in the order they appear. */
  method Scan(decisions: seq<Decision>) returns (pairs: seq<(string, string)>, tiers: seq<string>)
    requires Nondecreasing(DecisionLe, decisions)
    ensures Listed(PairLe, pairs) && Elements(pairs) == Pairs(Elements(decisions))
    ensures Distinct(tiers) && Elements(tiers) == Tiers(Elements(decisions))
  {
    pairs, tiers := [], [];
    for i := 0 to |decisions|
      invariant PairsScanned(decisions, i, pairs) && TiersScanned(decisions, i, tiers)
    {
      pairs := ScanPair(decisions, i, pairs);
      tiers := ScanTier(decisions, i, tiers);
    }
    assert decisions[..|decisions|] == decisions;
  }

  lemma AddElement(s: set<Decision>, d: Decision)
    ensures Pairs(s + {d}) == Pairs(s) + {Key(d)}
    ensures Tiers(s + {d}) == Tiers(s) + {d.tier}
  {
  }

  lemma PrefixElements(decisions: seq<Decision>, i: nat)
    requires i < |decisions|
    ensures Elements(decisions[..i + 1]) == Elements(decisions[..i]) + {decisions[i]}
  {
    ElementsOfConcat(decisions[..i], [decisions[i]]);
    assert decisions[..i + 1] == decisions[..i] + [decisions[i]];
    assert Elements([decisions[i]]) == {decisions[i]};
  }

  method ScanPair(decisions: seq<Decision>, i: nat, pairs: seq<(string, string)>) returns (more: seq<(string, string)>)
    requires i < |decisions| && Nondecreasing(DecisionLe, decisions) && PairsScanned(decisions, i, pairs)
    ensures PairsScanned(decisions, i + 1, more)
  {
    more := pairs;
    PrefixElements(decisions, i);
    AddElement(Elements(decisions[..i]), decisions[i]);
    if i == 0 || Key(decisions[i]) != Key(decisions[i - 1]) {
      ExtendPairs(decisions, i, pairs);
      more := pairs + [Key(decisions[i])];
    } else {
      assert Key(decisions[i]) in Elements(pairs);
    }
  }

  lemma ExtendPairs(decisions: seq<Decision>, i: nat, pairs: seq<(string, string)>)
    requires i < |decisions| && Nondecreasing(DecisionLe, decisions) && Listed(PairLe, pairs)
    requires if i == 0 then pairs == []
             else pairs != [] && pairs[|pairs| - 1] == Key(decisions[i - 1]) != Key(decisions[i])
    ensures Listed(PairLe, pairs + [Key(decisions[i])])
    ensures Elements(pairs + [Key(decisions[i])]) == Elements(pairs) + {Key(decisions[i])}
  {
    ElementsOfConcat(pairs, [Key(decisions[i])]);
    PairOrder();
    if i > 0 {
      assert DecisionLe(decisions[i - 1], decisions[i]);
    }
  }

  method ScanTier(decisions: seq<Decision>, i: nat, tiers: seq<string>) returns (more: seq<string>)
    requires i < |decisions| && TiersScanned(decisions, i, tiers)
    ensures TiersScanned(decisions, i + 1, more)
  {
    more := tiers;
    PrefixElements(decisions, i);
    AddElement(Elements(decisions[..i]), decisions[i]);
    if decisions[i].tier !in tiers {
      ElementsOfConcat(tiers, [decisions[i].tier]);
      more := tiers + [decisions[i].tier];
    } else {
      assert decisions[i].tier in Elements(tiers);
    }
  }

  method FindConflict(ts: seq<Target>, name: string) returns (conflict: Option<Refusal>)
    ensures conflict == RouteConflict(ts, name)
  {
    var claimed, doubly, decisions := CollectDecisions(ts, name);
    EmptyElements(doubly);
    if claimed && |doubly| > 0 {
      conflict := RefuseDoubly(ts, name, doubly);
    } else if !claimed {
      var dialects := ExplicitDialects(ts, name);
      conflict := if |dialects| > 1 then Some(RawConflict(name, dialects)) else None;
    } else {
      conflict := RefuseDecisions(name, decisions);
    }
  }

  method ListConflicts(ts: seq<Target>, models: seq<string>) returns (conflicts: seq<seq<string>>)
    ensures conflicts == ConflictLists(ts, models)
  {
    conflicts := [];
    for i := 0 to |models|
      invariant conflicts == ConflictLists(ts, models[..i])
    {
      var dialects := ExplicitDialects(ts, models[i]);
      assert models[..i + 1][..i] == models[..i];
      conflicts := conflicts + [dialects];
    }
    assert models[..|models|] == models;
  }

  method RefuseDoubly(ts: seq<Target>, name: string, doubly: seq<string>) returns (conflict: Option<Refusal>)
    requires doubly != [] && Distinct(doubly)
    ensures conflict == Some(DoublyRefusal(ts, name, Elements(doubly)))
  {
    StringOrder();
    SortLists(StringLe, doubly);
    var models := Sort(StringLe, doubly);
    var conflicts := ListConflicts(ts, models);
    conflict := Some(DoublyMapped(name, models, conflicts));
  }

  method RefuseDecisions(name: string, collected: seq<Decision>) returns (conflict: Option<Refusal>)
    ensures conflict == DecisionConflict(name, Elements(collected))
  {
    if |collected| == 0 {
      assert Pairs({}) == {} && Tiers({}) == {};
      assert Elements(collected) == {};
      return None;
    }
    PairOrder();
    SortSorts(DecisionLe, collected);
    var decisions := Sort(DecisionLe, collected);
    var pairs, tiers := Scan(decisions);
    ListingIsUnique(PairLe, pairs, Listing(PairLe, Elements(pairs)));
    if |pairs| > 1 {
      return Some(DecidedDifferently(name, pairs));
    }
    StringOrder();
    SortLists(StringLe, tiers);
    SortSorts(StringLe, tiers);
    assert decisions[0] in Elements(decisions) && Key(decisions[0]) in Elements(pairs);
    if |tiers| > 1 {
      return Some(ConflictingTiers(name, decisions[0].model, NameTiers(Sort(StringLe, tiers))));
    }
    conflict := None;
  }

  // ----- Selection -----

  /** What a search over the targets looks for. */
  datatype Pick =
    | ByName         // maps the name itself to a dialect
    | Claiming
    | Deciding       // claims the name and maps its target model to a dialect
    | Indirect       // claims the name, and some target maps its target model to a dialect
    | Mapping        // claims the name and resolves its target model
    | Serving(upstream: Upstream)

  predicate Picks(pick: Pick, all: seq<Target>, t: Target, name: string) {
    match pick
    case ByName => Explicit(t, name)
    case Claiming => Claims(t, name)
    case Deciding => Claims(t, name) && Explicit(t, t.profiles[name].model)
    case Indirect => Claims(t, name) && exists u :: u in all && Explicit(u, t.profiles[name].model)
    case Mapping => Claims(t, name) && Resolve(t.models, t.profiles[name].model).Some?
    case Serving(upstream) => t.upstream == upstream
  }

  /** The first target a loop over ts finds; chatOnly is the loops' extra test for the chat target. */
  function First(pick: Pick, chatOnly: bool, all: seq<Target>, ts: seq<Target>, name: string): (r: Option<Target>)
    ensures r.Some? ==> r.value in ts && Picks(pick, all, r.value, name)
    ensures r.Some? && chatOnly ==> r.value.upstream.ChatUpstream?
    ensures r.None? ==> forall t :: t in ts && Picks(pick, all, t, name) ==> chatOnly && !t.upstream.ChatUpstream?
  {
    if ts == [] then None
    else if Picks(pick, all, ts[0], name) && (chatOnly ==> ts[0].upstream.ChatUpstream?) then Some(ts[0])
    else First(pick, chatOnly, all, ts[1..], name)
  }

  method Find(pick: Pick, chatOnly: bool, ts: seq<Target>, name: string) returns (r: Option<Target>)
    ensures r == First(pick, chatOnly, ts, ts, name)
  {
    for i := 0 to |ts|
      invariant First(pick, chatOnly, ts, ts, name) == First(pick, chatOnly, ts, ts[i..], name)
    {
      if Picks(pick, ts, ts[i], name) && (chatOnly ==> ts[i].upstream.ChatUpstream?) {
        return Some(ts[i]);
      }
    }
    r := None;
  }

  /** targetSelection: target is the one that decided or claimed the name, profileModel the claimed target model. */
  datatype Selection = Selection(via: string, target: Option<Target>, profileModel: string)

  function SelectionFor(t: Target, name: string, via: string): Selection
    requires Claims(t, name)
  {
    Selection(via, Some(t), t.profiles[name].model)
  }

  /** The dialect of the first target that maps the model to one. */
  function FirstVia(ts: seq<Target>, model: string): string {
    match First(ByName, false, ts, ts, model)
    case Some(t) => Via(t, model)
    case None => ""
  }

  /** The claimant that answers when no target names a dialect. */
  function Fallback(ts: seq<Target>, name: string): (t: Target)
    requires First(Claiming, false, ts, ts, name).Some?
    ensures t in ts && Claims(t, name)
  {
    if First(Mapping, true, ts, ts, name).Some? then First(Mapping, true, ts, ts, name).value
    else if First(Mapping, false, ts, ts, name).Some? then First(Mapping, false, ts, ts, name).value
    else if First(Claiming, true, ts, ts, name).Some? then First(Claiming, true, ts, ts, name).value
    else First(Claiming, false, ts, ts, name).value
  }

  function Select(ts: seq<Target>, name: string): Selection {
    if First(Claiming, false, ts, ts, name).None? then
      match First(ByName, false, ts, ts, name)
      case Some(t) => Selection(Via(t, name), Some(t), "")
      case None => Selection("", None, "")
    else
      match First(Deciding, false, ts, ts, name)
      case Some(t) => SelectionFor(t, name, Via(t, t.profiles[name].model))
      case None =>
        match First(Indirect, false, ts, ts, name)
        case Some(t) => SelectionFor(t, name, FirstVia(ts, t.profiles[name].model))
        case None => SelectionFor(Fallback(ts, name), name, "")
  }

  method SelectTarget(ts: seq<Target>, name: string) returns (sel: Selection)
    ensures sel == Select(ts, name)
  {
    var claim := Find(Claiming, false, ts, name);
    if claim.Some? {
      var t := Find(Deciding, false, ts, name);
      if t.Some? {
        return SelectionFor(t.value, name, Via(t.value, t.value.profiles[name].model));
      }
      t := Find(Indirect, false, ts, name);
      if t.Some? {
        var u := Find(ByName, false, ts, t.value.profiles[name].model);
        return SelectionFor(t.value, name, if u.Some? then Via(u.value, t.value.profiles[name].model) else "");
      }
      t := Find(Mapping, true, ts, name);
      if t.None? {
        t := Find(Mapping, false, ts, name);
      }
      if t.None? {
        t := Find(Claiming, true, ts, name);
      }
      return SelectionFor(if t.Some? then t.value else claim.value, name, "");
    }
    var t := Find(ByName, false, ts, name);
    if t.Some? {
      return Selection(Via(t.value, name), t, "");
    }
    sel := Selection("", None, "");
  }

  // ----- The decision of ServeHTTP -----

  /** The dispatcher's two handlers. */
  datatype Handlers = Handlers(chat: Option<Target>, responses: Option<Target>)

  datatype Table = Table(targets: seq<Target>, handlers: Handlers)

  function TableOf(ts: seq<Target>): Table {
    var chat := First(Serving(ChatUpstream), false, ts, ts, "");
    Table(ts, Handlers(chat, First(Serving(ResponsesUpstream), false, ts, ts, "")))
  }

  /** newMultiTranscodeDispatcher over the mappings of one route, with their client protocols. */
  method New<Client(==)>(mappings: seq<(Client, Target)>) returns (table: Option<Table>)
    ensures table.Some? <==> forall i, j :: 0 <= i < j < |mappings| ==> mappings[i].0 == mappings[j].0
    ensures table.Some? ==> |table.value.targets| == |mappings| && table.value == TableOf(table.value.targets)
    ensures table.Some? ==> forall i :: 0 <= i < |mappings| ==> table.value.targets[i] == mappings[i].1
  {
    var built := Table([], Handlers(None, None));
    for i := 0 to |mappings|
      invariant |built.targets| == i && built == TableOf(built.targets)
      invariant forall k :: 0 <= k < i ==> built.targets[k] == mappings[k].1 && mappings[k].0 == mappings[0].0
    {
      if mappings[i].0 != mappings[0].0 {
        return None;
      }
      built := AddTarget(built, mappings[i].1);
    }
    table := Some(built);
  }

  method AddTarget(table: Table, t: Target) returns (more: Table)
    requires table == TableOf(table.targets)
    ensures more == TableOf(table.targets + [t])
  {
    var chat, responses := table.handlers.chat, table.handlers.responses;
    FirstOfOneMore(ChatUpstream, table.targets, t);
    FirstOfOneMore(ResponsesUpstream, table.targets, t);
    match t.upstream {
      case ResponsesUpstream =>
        if responses.None? {
          responses := Some(t);
        }
      case ChatUpstream =>
        if chat.None? {
          chat := Some(t);
        }
      case MessagesUpstream =>
    }
    more := Table(table.targets + [t], Handlers(chat, responses));
  }

  lemma {:induction false} FirstIgnoresAll(upstream: Upstream, a: seq<Target>, b: seq<Target>, ts: seq<Target>)
    ensures First(Serving(upstream), false, a, ts, "") == First(Serving(upstream), false, b, ts, "")
  {
    if ts != [] {
      FirstIgnoresAll(upstream, a, b, ts[1..]);
    }
  }

  lemma {:induction false} FirstOfConcat(upstream: Upstream, all: seq<Target>, ts: seq<Target>, t: Target)
    ensures First(Serving(upstream), false, all, ts + [t], "") ==
              if First(Serving(upstream), false, all, ts, "").Some? then First(Serving(upstream), false, all, ts, "")
              else if t.upstream == upstream then Some(t) else None
  {
    if ts != [] {
      FirstOfConcat(upstream, all, ts[1..], t);
      assert (ts + [t])[1..] == ts[1..] + [t];
    }
  }

  lemma FirstOfOneMore(upstream: Upstream, ts: seq<Target>, t: Target)
    ensures First(Serving(upstream), false, ts + [t], ts + [t], "") ==
              if First(Serving(upstream), false, ts, ts, "").Some? then First(Serving(upstream), false, ts, ts, "")
              else if t.upstream == upstream then Some(t) else None
  {
    FirstOfConcat(upstream, ts + [t], ts, t);
    FirstIgnoresAll(upstream, ts, ts + [t], ts);
  }

  /** The native route's miss in the request context, and the model of a body that could be read. */
  datatype Miss = Miss(model: string, via: string, native: string)
  datatype Request = Request(miss: Option<Miss>, body: Option<string>)

  predicate NativelyResolved(req: Request) {
    req.miss.Some? && req.miss.value.via != ""
  }

  function ClientModel(req: Request): string {
    if req.miss.Some? && (req.miss.value.model != "" || NativelyResolved(req)) then req.miss.value.model
    else if req.body.Some? then req.body.value else ""
  }

  /** profileDialectRefusal for a profile answer that names a dialect. */
  function ProfileDialectRefusal(handlers: Handlers, name: string, sel: Selection): Option<Refusal> {
    match if sel.via == RESPONSES then handlers.responses else handlers.chat
    case None => Some(NoMapping(name, sel.profileModel, sel.via))
    case Some(served) =>
      if !(Claims(served, name) && served.profiles[name].model == sel.profileModel) then
        Some(ProfileUndefined(name, sel.profileModel, sel.via))
      else if Resolve(served.models, sel.profileModel).None? then Some(TargetUnmapped(name, sel.profileModel, sel.via))
      else if Explicit(served, sel.profileModel) && Via(served, sel.profileModel) != sel.via then
        Some(TargetElsewhere(name, sel.profileModel, sel.via))
      else None
  }

  function NativeRefusal(name: string, sel: Selection, req: Request): Refusal {
    var remedy :=
      if req.miss.None? then AddNativeRoute
      else if req.miss.value.native == MESSAGES then ByModelName
      else OtherPath(if sel.profileModel != "" then "" else req.miss.value.native);
    if sel.profileModel != "" then ProfileNative(name, sel.profileModel, remedy) else ModelNative(name, remedy)
  }

  /** The handler ServeHTTP's switch chooses once nothing is refused on the way. */
  function Dispatch(handlers: Handlers, via: string, claiming: Option<Target>, native: Refusal): Outcome {
    if via == "" && claiming.Some? then Serve(claiming.value)
    else if via == RESPONSES && handlers.responses.Some? then Serve(handlers.responses.value)
    else if via == CHAT && handlers.chat.Some? then Serve(handlers.chat.value)
    else if via == MESSAGES then Refuse(404, native)
    else if handlers.chat.Some? then Serve(handlers.chat.value)
    else if handlers.responses.Some? then Serve(handlers.responses.value)
    else Refuse(500, NoHandler)
  }

  /** What follows the selection: the check of a profile answer, and the switch. */
  function Answer(handlers: Handlers, name: string, sel: Selection, req: Request): Outcome {
    var refusal := ProfileDialectRefusal(handlers, name, sel);
    if sel.profileModel != "" && sel.via != MESSAGES && sel.via != "" && refusal.Some? then Refuse(500, refusal.value)
    else Dispatch(handlers, sel.via, sel.target, NativeRefusal(name, sel, req))
  }

  ghost function Decided(table: Table, req: Request): Outcome {
    var name := ClientModel(req);
    if NativelyResolved(req) || name == "" then
      Answer(table.handlers, name, Selection(if NativelyResolved(req) then req.miss.value.via else "", None, ""), req)
    else
      match RouteConflict(table.targets, name)
      case Some(refusal) => Refuse(500, refusal)
      case None => Answer(table.handlers, name, Select(table.targets, name), req)
  }

  method ServeHTTP(table: Table, req: Request) returns (outcome: Outcome)
    ensures outcome == Decided(table, req)
  {
    var targetVia, clientModel, resolved := "", "", false;
    if req.miss.Some? {
      clientModel := req.miss.value.model;
      if req.miss.value.via != "" {
        targetVia, resolved := req.miss.value.via, true;
      }
    }
    if !resolved && clientModel == "" && req.body.Some? {
      clientModel := req.body.value;
    }
    var sel := Selection("", None, "");
    if !resolved && clientModel != "" {
      var conflict := FindConflict(table.targets, clientModel);
      if conflict.Some? {
        return Refuse(500, conflict.value);
      }
      sel := SelectTarget(table.targets, clientModel);
      targetVia := sel.via;
    }
    if sel.profileModel != "" && targetVia != MESSAGES && targetVia != "" {
      var refusal := ProfileDialectRefusal(table.handlers, clientModel, sel);
      if refusal.Some? {
        return Refuse(500, refusal.value);
      }
    }
    outcome := Dispatch(table.handlers, targetVia, sel.target, NativeRefusal(clientModel, sel, req));
  }
}
