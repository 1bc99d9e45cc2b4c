/** The mount router of internal/router/router.go. */
module Router {
  import opened Prelude
  import opened Paths

  /** A provider; None stands for a nil Proxy, and a handler is known by a number. */
  datatype Provider = Provider(name: string, prefix: string, proxy: Option<nat>)

  datatype NewError =
    | NoProviders
    | NilProxy(index: nat)
    | SecondBareRoot
    | BareRootAmongMany(name: string)
    | Overlap(a: Provider, b: Provider)

  datatype NewResult = Table(providers: seq<Provider>) | Refused(error: NewError)

  /** normalizePrefix. */
  function Normalized(prefix: string): string {
    if prefix == "" || prefix == "/" then ""
    else if prefix[|prefix| - 1] == '/' then prefix[..|prefix| - 1]
    else prefix
  }

  function Normalize(p: Provider): Provider {
    p.(prefix := Normalized(p.prefix))
  }

  function NormalizeAll(ps: seq<Provider>): seq<Provider> {
    seq(|ps|, i requires 0 <= i < |ps| => Normalize(ps[i]))
  }

  /** One mount's segments begin the other's. */
  predicate Overlaps(a: string, b: string) {
    Segments(a) <= Segments(b) || Segments(b) <= Segments(a)
  }

  /** The tables New accepts. */
  ghost predicate Acceptable(ps: seq<Provider>) {
    && ps != []
    && (forall p :: p in ps ==> p.proxy.Some?)
    && (|ps| > 1 ==>
          && (forall p :: p in ps ==> Normalized(p.prefix) != "")
          && (forall i, j :: 0 <= i < j < |ps| ==> !Overlaps(Normalized(ps[i].prefix), Normalized(ps[j].prefix))))
  }

  /** What each construction error says about the given providers. */
  ghost predicate Explains(error: NewError, ps: seq<Provider>) {
    match error
    case NoProviders => ps == []
    case NilProxy(i) => i < |ps| && ps[i].proxy.None?
    case SecondBareRoot =>
      exists i, j :: 0 <= i < j < |ps| && Normalized(ps[i].prefix) == "" && Normalized(ps[j].prefix) == ""
    case BareRootAmongMany(name) =>
      |ps| > 1 && exists i :: 0 <= i < |ps| && Normalized(ps[i].prefix) == "" && ps[i].name == name
    case Overlap(a, b) =>
      Overlaps(a.prefix, b.prefix) &&
      exists i, j :: 0 <= i < j < |ps| && Normalize(ps[i]) == a && Normalize(ps[j]) == b
  }

  predicate Mounts(p: Provider, segs: seq<string>) {
    Segments(p.prefix) <= segs
  }

  /** A dispatched request: the provider and the path it is handed; None is the router's 404. */
  datatype Dispatched = Dispatched(provider: Provider, path: string)

  function Forward(p: Provider, segs: seq<string>): Dispatched
    requires Mounts(p, segs)
  {
    Dispatched(p, Join(segs[|Segments(p.prefix)|..]))
  }

  /** ServeHTTP's scan: the first provider whose mount begins the request path. */
  function Dispatch(table: seq<Provider>, segs: seq<string>): Option<Dispatched> {
    if table == [] then None
    else if Mounts(table[0], segs) then Some(Forward(table[0], segs))
    else Dispatch(table[1..], segs)
  }

  method PrefixesOverlap(a: string, b: string) returns (overlap: bool)
    ensures overlap <==> Overlaps(a, b)
  {
    var xs := ComputeSegments(a);
    var ys := ComputeSegments(b);
    if |xs| > |ys| {
      xs, ys := ys, xs;
    }
    for i := 0 to |xs|
      invariant xs[..i] == ys[..i]
    {
      if xs[i] != ys[i] {
        return false;
      }
    }
    assert xs[..|xs|] == xs;
    return true;
  }

  /** New's first loop: every prefix normalized, or the error that stopped it; bare is the bare root's index or -1. */
  method NormalizeProviders(providers: seq<Provider>) returns (r: NewResult, bare: int)
    requires providers != []
    ensures r.Table? ==>
              && r.providers == NormalizeAll(providers)
              && (forall p :: p in providers ==> p.proxy.Some?)
              && -1 <= bare < |providers|
              && (forall k :: 0 <= k < |providers| ==> (Normalized(providers[k].prefix) == "" <==> k == bare))
    ensures r.Refused? ==> !Acceptable(providers) && Explains(r.error, providers)
  {
    var table := providers;
    bare := -1;
    for i := 0 to |providers|
      invariant |table| == |providers| && -1 <= bare < i
      invariant forall k :: 0 <= k < i ==> table[k] == Normalize(providers[k]) && providers[k].proxy.Some?
      invariant forall k :: i <= k < |table| ==> table[k] == providers[k]
      invariant forall k :: 0 <= k < i ==> (Normalized(providers[k].prefix) == "" <==> k == bare)
    {
      if table[i].proxy.None? {
        assert providers[i] in providers;
        return Refused(NilProxy(i)), bare;
      }
      table := table[i := Normalize(table[i])];
      if table[i].prefix == "" {
        if bare >= 0 {
          assert providers[i] in providers;
          assert Normalized(providers[bare].prefix) == "" && Normalized(providers[i].prefix) == "";
          return Refused(SecondBareRoot), bare;
        }
        bare := i;
      }
    }
    assert table == NormalizeAll(providers);
    return Table(table), bare;
  }

  /** New's overlap check: the first pair of mounts one of which begins the other. */
  method FindOverlap(table: seq<Provider>) returns (clash: Option<(nat, nat)>)
    ensures clash.Some? ==>
              && clash.value.0 < clash.value.1 < |table|
              && Overlaps(table[clash.value.0].prefix, table[clash.value.1].prefix)
    ensures clash.None? ==>
              forall i, j :: 0 <= i < j < |table| ==> !Overlaps(table[i].prefix, table[j].prefix)
  {
    for a := 0 to |table|
      invariant forall i, j :: 0 <= i < a && i < j < |table| ==> !Overlaps(table[i].prefix, table[j].prefix)
    {
      for b := a + 1 to |table|
        invariant forall j :: a < j < b ==> !Overlaps(table[a].prefix, table[j].prefix)
      {
        var overlap := PrefixesOverlap(table[a].prefix, table[b].prefix);
        if overlap {
          return Some((a, b));
        }
      }
    }
    return None;
  }

  method New(providers: seq<Provider>) returns (r: NewResult)
    ensures r.Table? <==> Acceptable(providers)
    ensures r.Table? ==> r.providers == NormalizeAll(providers)
    ensures r.Refused? ==> Explains(r.error, providers)
  {
    if providers == [] {
      return Refused(NoProviders);
    }
    var bare;
    r, bare := NormalizeProviders(providers);
    if r.Refused? {
      return;
    }
    if |providers| > 1 && bare >= 0 {
      assert providers[bare] in providers;
      return Refused(BareRootAmongMany(r.providers[bare].name));
    }
    var clash := FindOverlap(r.providers);
    assert forall k :: 0 <= k < |providers| ==> r.providers[k].prefix == Normalized(providers[k].prefix);
    assert |providers| > 1 ==> forall k :: 0 <= k < |providers| ==> Normalized(providers[k].prefix) != "";
    if clash.Some? {
      var (a, b) := clash.value;
      assert Normalize(providers[a]) == r.providers[a] && Normalize(providers[b]) == r.providers[b];
      return Refused(Overlap(r.providers[a], r.providers[b]));
    }
  }

  /** The inner loop of ServeHTTP. */
  method Begins(pre: seq<string>, segs: seq<string>) returns (begins: bool)
    ensures begins <==> pre <= segs
  {
    if |segs| < |pre| {
      return false;
    }
    var k := 0;
    while k < |pre| && segs[k] == pre[k]
      invariant k <= |pre| && pre[..k] == segs[..k]
    {
      k := k + 1;
    }
    assert k == |pre| ==> pre[..k] == pre;
    return k == |pre|;
  }

  /** ServeHTTP over an accepted table; the bare root is the table's only provider with an empty prefix. */
  method ServeHTTP(table: seq<Provider>, path: string) returns (r: Option<Dispatched>)
    requires |table| > 1 ==> forall p :: p in table ==> p.prefix != ""
    ensures r == Dispatch(table, Segments(path))
  {
    if |table| == 1 && table[0].prefix == "" {
      var all := ComputeSegments(path);
      var whole := ComputeJoin(all);
      assert Segments("") == [] && all[0..] == all;
      return Some(Dispatched(table[0], whole));
    }
    var segs := ComputeSegments(path);
    for i := 0 to |table|
      invariant Dispatch(table[i..], segs) == Dispatch(table, segs)
    {
      var pre := ComputeSegments(table[i].prefix);
      var mounts := Begins(pre, segs);
      if mounts {
        var rest := ComputeJoin(segs[|pre|..]);
        return Some(Dispatched(table[i], rest));
      }
    }
    return None;
  }

  // ----- Laws of an accepted table -----

  lemma PrefixesOfOne(a: seq<string>, b: seq<string>, whole: seq<string>)
    requires a <= whole && b <= whole
    ensures a <= b || b <= a
  {
  }

  /** An accepted table sends no path to two providers. */
  lemma AtMostOneMounts(ps: seq<Provider>, segs: seq<string>, i: nat, j: nat)
    requires Acceptable(ps) && i < |ps| && j < |ps|
    requires Mounts(Normalize(ps[i]), segs) && Mounts(Normalize(ps[j]), segs)
    ensures i == j
  {
    PrefixesOfOne(Segments(Normalized(ps[i].prefix)), Segments(Normalized(ps[j].prefix)), segs);
  }

  /** The scan answers with a mounting provider of the table, and with 404 only when there is none. */
  lemma {:induction false} DispatchFinds(table: seq<Provider>, segs: seq<string>)
    ensures match Dispatch(table, segs)
            case Some(d) => d.provider in table && Mounts(d.provider, segs) && d == Forward(d.provider, segs)
            case None => forall p :: p in table ==> !Mounts(p, segs)
  {
    if table != [] {
      DispatchFinds(table[1..], segs);
    }
  }

  lemma NormalizedMember(ps: seq<Provider>, p: Provider)
    ensures p in NormalizeAll(ps) <==> exists i :: 0 <= i < |ps| && Normalize(ps[i]) == p
  {
    var ns := NormalizeAll(ps);
    if p in ns {
      var i :| 0 <= i < |ns| && ns[i] == p;
      assert Normalize(ps[i]) == p;
    }
    if i :| 0 <= i < |ps| && Normalize(ps[i]) == p {
      assert ns[i] == p;
    }
  }

  lemma MultiplicityTwo<T>(s: seq<T>, i: nat, j: nat)
    requires i < j < |s| && s[i] == s[j]
    ensures multiset(s)[s[i]] >= 2
  {
    assert s == s[..j] + [s[j]] + s[j + 1..];
    assert s[..j][i] == s[i];
  }

  lemma OccursTwice<T>(s: seq<T>, x: T) returns (i: nat, j: nat)
    requires multiset(s)[x] >= 2
    ensures i < j < |s| && s[i] == s[j] == x
  {
    i :| 0 <= i < |s| && s[i] == x;
    assert s == s[..i] + [s[i]] + s[i + 1..];
    if x in s[i + 1..] {
      var k :| 0 <= k < |s[i + 1..]| && s[i + 1..][k] == x;
      j := i + 1 + k;
    } else {
      assert x in s[..i];
      var k :| 0 <= k < |s[..i]| && s[..i][k] == x;
      i, j := k, i;
    }
  }

  lemma SameMembers<T>(s: seq<T>, t: seq<T>, x: T)
    requires multiset(s) == multiset(t)
    ensures x in s <==> x in t
    ensures |s| == |t|
  {
    assert x in s <==> x in multiset(s);
    assert x in t <==> x in multiset(t);
    assert |s| == |multiset(s)| && |t| == |multiset(t)|;
  }

  lemma AcceptablePermutes(ps: seq<Provider>, qs: seq<Provider>)
    requires multiset(ps) == multiset(qs) && Acceptable(ps)
    ensures Acceptable(qs)
  {
    forall p {:trigger p in qs}
      ensures (p in ps <==> p in qs) && |ps| == |qs|
    {
      SameMembers(ps, qs, p);
    }
    if |ps| > 1 {
      forall i, j | 0 <= i < j < |qs|
        ensures !Overlaps(Normalized(qs[i].prefix), Normalized(qs[j].prefix))
      {
        if qs[i] == qs[j] {
          MultiplicityTwo(qs, i, j);
          var k, l := OccursTwice(ps, qs[i]);
          assert false;
        }
        assert qs[i] in ps && qs[j] in ps;
        var k :| 0 <= k < |ps| && ps[k] == qs[i];
        var l :| 0 <= l < |ps| && ps[l] == qs[j];
      }
    }
  }

  /** Acceptance and dispatch do not depend on the order in which the providers are configured. */
  lemma DispatchIgnoresOrder(ps: seq<Provider>, qs: seq<Provider>, path: string)
    requires multiset(ps) == multiset(qs)
    ensures Acceptable(ps) <==> Acceptable(qs)
    ensures Acceptable(ps) ==>
              Dispatch(NormalizeAll(ps), Segments(path)) == Dispatch(NormalizeAll(qs), Segments(path))
  {
    if Acceptable(qs) {
      AcceptablePermutes(qs, ps);
    }
    if Acceptable(ps) {
      AcceptablePermutes(ps, qs);
      DispatchCarriesOver(ps, qs, Segments(path));
      DispatchCarriesOver(qs, ps, Segments(path));
    }
  }

  lemma DispatchCarriesOver(ps: seq<Provider>, qs: seq<Provider>, segs: seq<string>)
    requires multiset(ps) == multiset(qs) && Acceptable(ps) && Acceptable(qs)
    ensures Dispatch(NormalizeAll(ps), segs).Some? ==>
              Dispatch(NormalizeAll(qs), segs) == Dispatch(NormalizeAll(ps), segs)
  {
    var a, b := Dispatch(NormalizeAll(ps), segs), Dispatch(NormalizeAll(qs), segs);
    DispatchFinds(NormalizeAll(ps), segs);
    DispatchFinds(NormalizeAll(qs), segs);
    if a.Some? {
      NormalizedMember(ps, a.value.provider);
      var i :| 0 <= i < |ps| && Normalize(ps[i]) == a.value.provider;
      SameMembers(ps, qs, ps[i]);
      var k :| 0 <= k < |qs| && qs[k] == ps[i];
      NormalizedMember(qs, a.value.provider);
      assert b.Some?;
      NormalizedMember(qs, b.value.provider);
      var j :| 0 <= j < |qs| && Normalize(qs[j]) == b.value.provider;
      AtMostOneMounts(qs, segs, j, k);
    }
  }

  /** The mount's segments followed by the forwarded path's segments are the request's, and the forwarded path is in
      normal form. */
  lemma MountAddsUp(table: seq<Provider>, path: string)
    ensures match Dispatch(table, Segments(path))
            case Some(d) =>
              && Segments(d.provider.prefix) + Segments(d.path) == Segments(path)
              && Join(Segments(d.path)) == d.path
            case None => true
  {
    DispatchFinds(table, Segments(path));
    SegmentsAreClean(path);
    match Dispatch(table, Segments(path)) {
      case Some(d) =>
        var rest := Segments(path)[|Segments(d.provider.prefix)|..];
        assert forall s :: s in rest ==> s in Segments(path);
        SegmentsOfJoin(rest);
      case None =>
    }
  }

  /** Normalizing a prefix leaves its mount as it is, drops one trailing slash at most, and makes "" of exactly "" and
      "/". */
  lemma NormalizationKeepsMount(prefix: string)
    ensures Segments(Normalized(prefix)) == Segments(prefix)
    ensures Normalized(prefix) == "" <==> prefix == "" || prefix == "/"
    ensures prefix != "" ==>
              if prefix[|prefix| - 1] == '/' then Normalized(prefix) + "/" == prefix else Normalized(prefix) == prefix
  {
    if prefix != "" && prefix[|prefix| - 1] == '/' {
      var front := prefix[..|prefix| - 1];
      assert front + "/" + "" == prefix;
      SegmentsOfConcat(front, "");
      assert Split("", '/') == [""];
      ResolveOne(Segments(front), "");
    }
  }

  /** A provider serves exactly the paths that begin, segment by segment, with its prefix; it is handed the rest. */
  lemma MountsExactlyWhen(p: Provider, path: string)
    ensures Mounts(p, Segments(path)) <==>
              exists rest :: Segments(path) == Segments(p.prefix) + rest
    ensures Mounts(p, Segments(path)) ==>
              Segments(p.prefix) + Segments(Forward(p, Segments(path)).path) == Segments(path)
  {
    if Mounts(p, Segments(path)) {
      var rest := Segments(path)[|Segments(p.prefix)|..];
      assert Segments(path) == Segments(p.prefix) + rest;
      SegmentsAreClean(path);
      assert forall s :: s in rest ==> s in Segments(path);
      SegmentsOfJoin(rest);
    }
  }
}
