/** The response cache: its keys, its lifetimes and its timed store (cache.rs). Times are in seconds. */
module Cache {
  import opened Common
  import opened Responses
  import opened Fetches

  datatype CacheConfig = CacheConfig(
    enabled: bool,
    redisUrl: string,
    ttlPropertyReadSec: u64,
    ttlSearchSec: u64,
    ttlPricingSec: u64,
    ttlReviewSummarySec: u64)
  {
    predicate Enabled() { enabled && redisUrl != "" }
  }

  // ---- keys ----------------------------------------------------------------------------

  const SEPARATOR: char := '\U{1E}'

  /** What is fed to the hash; a missing operation name is fed as the empty one. */
  function CacheKey(document: string, operationName: Option<string>, variables: string, identity: string): string {
    document + [SEPARATOR] + operationName.GetOr("") + [SEPARATOR] + variables + [SEPARATOR] + identity
  }

  predicate Unseparated(s: string) { SEPARATOR !in s }

  lemma FirstSeparator(a: string, x: string, b: string, y: string)
    requires Unseparated(a) && Unseparated(b) && a + [SEPARATOR] + x == b + [SEPARATOR] + y
    ensures a == b && x == y
  {
    var s := a + [SEPARATOR] + x;
    assert s[|a|] == SEPARATOR && s[|b|] == SEPARATOR;
    assert forall i :: 0 <= i < |a| ==> s[i] == a[i];
    assert forall i :: 0 <= i < |b| ==> s[i] == b[i];
    assert s[..|a|] == a && s[..|b|] == b && s[|a| + 1..] == x && s[|b| + 1..] == y;
  }

  lemma LastSeparator(x: string, a: string, y: string, b: string)
    requires Unseparated(a) && Unseparated(b) && x + [SEPARATOR] + a == y + [SEPARATOR] + b
    ensures a == b && x == y
  {
    var s := x + [SEPARATOR] + a;
    assert s[|x|] == SEPARATOR && s[|y|] == SEPARATOR;
    assert forall i :: |x| < i < |s| ==> s[i] == a[i - |x| - 1];
    assert forall i :: |y| < i < |s| ==> s[i] == b[i - |y| - 1];
    assert s[..|x|] == x && s[..|y|] == y && s[|x| + 1..] == a && s[|y| + 1..] == b;
  }

  datatype KeyParts = KeyParts(document: string, operationName: Option<string>, variables: string, identity: string) {
    function Key(): string { CacheKey(document, operationName, variables, identity) }

    /** Neither a GraphQL document nor JSON text holds the separator. */
    predicate WellFormed() { Unseparated(document) && Unseparated(variables) }

    predicate Agrees(that: KeyParts) {
      && document == that.document && operationName.GetOr("") == that.operationName.GetOr("")
      && variables == that.variables && identity == that.identity
    }
  }

  predicate NamesUnseparated(p: KeyParts, q: KeyParts) {
    Unseparated(p.operationName.GetOr("")) && Unseparated(q.operationName.GetOr(""))
  }

  predicate IdentitiesUnseparated(p: KeyParts, q: KeyParts) { Unseparated(p.identity) && Unseparated(q.identity) }

  /** Keys tell requests apart as long as the separator stays out of the names, or out of the identities. */
  lemma KeysTellApart(p: KeyParts, q: KeyParts)
    requires p.WellFormed() && q.WellFormed() && (NamesUnseparated(p, q) || IdentitiesUnseparated(p, q))
    ensures p.Key() == q.Key() <==> p.Agrees(q)
  {
    if p.Key() == q.Key() {
      var pn, qn := p.operationName.GetOr(""), q.operationName.GetOr("");
      var pr, qr := pn + [SEPARATOR] + p.variables + [SEPARATOR] + p.identity,
          qn + [SEPARATOR] + q.variables + [SEPARATOR] + q.identity;
      assert p.Key() == p.document + [SEPARATOR] + pr && q.Key() == q.document + [SEPARATOR] + qr;
      FirstSeparator(p.document, pr, q.document, qr);
      if NamesUnseparated(p, q) {
        var pt, qt := p.variables + [SEPARATOR] + p.identity, q.variables + [SEPARATOR] + q.identity;
        assert pr == pn + [SEPARATOR] + pt && qr == qn + [SEPARATOR] + qt;
        FirstSeparator(pn, pt, qn, qt);
        FirstSeparator(p.variables, p.identity, q.variables, q.identity);
      } else {
        var ph, qh := pn + [SEPARATOR] + p.variables, qn + [SEPARATOR] + q.variables;
        assert pr == ph + [SEPARATOR] + p.identity && qr == qh + [SEPARATOR] + q.identity;
        LastSeparator(ph, p.identity, qh, q.identity);
        LastSeparator(pn, p.variables, qn, q.variables);
      }
    }
  }

  lemma SplitAtFirst(s: string) returns (a: string, b: string)
    requires !Unseparated(s)
    ensures s == a + [SEPARATOR] + b && Unseparated(a)
  {
    if s[0] == SEPARATOR {
      a, b := "", s[1..];
    } else {
      a, b := SplitAtFirst(s[1..]);
      a := [s[0]] + a;
    }
  }

  lemma SplitAtLast(s: string) returns (a: string, b: string)
    requires !Unseparated(s)
    ensures s == a + [SEPARATOR] + b && Unseparated(b)
  {
    var n := |s| - 1;
    if s[n] == SEPARATOR {
      a, b := s[..n], "";
    } else {
      assert s == s[..n] + [s[n]];
      a, b := SplitAtLast(s[..n]);
      b := b + [s[n]];
    }
  }

  /** A separator in the name lets the variables slip into the identity. */
  lemma CollidesByName(q: KeyParts) returns (p: KeyParts)
    requires q.WellFormed() && !Unseparated(q.operationName.GetOr(""))
    ensures p.WellFormed() && p.Key() == q.Key() && !p.Agrees(q)
  {
    var name := q.operationName.GetOr("");
    var a, b := SplitAtLast(name);
    p := KeyParts(q.document, Some(a), b, q.variables + [SEPARATOR] + q.identity);
    var tail := [SEPARATOR] + q.variables + [SEPARATOR] + q.identity;
    assert p.Key() == q.document + [SEPARATOR] + a + [SEPARATOR] + b + tail;
    assert q.Key() == q.document + [SEPARATOR] + name + tail;
  }

  /** A separator in the identity lets the variables slip into the name. */
  lemma CollidesByIdentity(q: KeyParts) returns (p: KeyParts)
    requires q.WellFormed() && !Unseparated(q.identity)
    ensures p.WellFormed() && p.Key() == q.Key() && !p.Agrees(q)
  {
    var name := q.operationName.GetOr("");
    var a, b := SplitAtFirst(q.identity);
    p := KeyParts(q.document, Some(name + [SEPARATOR] + q.variables), a, b);
    var head := q.document + [SEPARATOR] + name + [SEPARATOR] + q.variables + [SEPARATOR];
    assert p.Key() == head + a + [SEPARATOR] + b;
    assert q.Key() == head + q.identity;
  }

  lemma NoCollision(p: KeyParts, q: KeyParts)
    requires p.WellFormed() && q.WellFormed() && p.Key() == q.Key()
    requires Unseparated(q.operationName.GetOr("")) && Unseparated(q.identity)
    ensures p.Agrees(q)
  {
    var pn, qn := p.operationName.GetOr(""), q.operationName.GetOr("");
    if !Unseparated(pn) && !Unseparated(p.identity) {
      var a, b := SplitAtFirst(pn);
      var c, d := SplitAtLast(p.identity);
      TooManyParts(p, q, a, b, c, d);
    } else {
      KeysTellApart(p, q);
    }
  }

  lemma TooManyParts(p: KeyParts, q: KeyParts, a: string, b: string, c: string, d: string)
    requires p.WellFormed() && q.WellFormed() && Unseparated(q.operationName.GetOr("")) && Unseparated(q.identity)
    requires p.operationName.GetOr("") == a + [SEPARATOR] + b && Unseparated(a)
    requires p.identity == c + [SEPARATOR] + d && Unseparated(d)
    ensures p.Key() != q.Key()
  {
    var qn, rest := q.operationName.GetOr(""), b + [SEPARATOR] + p.variables + [SEPARATOR] + c;
    assert rest[|b|] == SEPARATOR;
    if p.Key() == q.Key() {
      var pr, qr := a + [SEPARATOR] + (rest + [SEPARATOR] + d),
          qn + [SEPARATOR] + (q.variables + [SEPARATOR] + q.identity);
      assert p.Key() == p.document + [SEPARATOR] + pr && q.Key() == q.document + [SEPARATOR] + qr;
      FirstSeparator(p.document, pr, q.document, qr);
      FirstSeparator(a, rest + [SEPARATOR] + d, qn, q.variables + [SEPARATOR] + q.identity);
      LastSeparator(rest, d, q.variables, q.identity);
    }
  }

  /**
   * Some other request, for a different document, name, variables or identity, has the same key
   * exactly when the separator stands in this one's name or in its identity.
   */
  lemma KeysCollideExactly(q: KeyParts)
    requires q.WellFormed()
    ensures (exists p: KeyParts :: p.WellFormed() && p.Key() == q.Key() && !p.Agrees(q)) <==>
            !Unseparated(q.operationName.GetOr("")) || !Unseparated(q.identity)
  {
    if !Unseparated(q.operationName.GetOr("")) {
      var p := CollidesByName(q);
    } else if !Unseparated(q.identity) {
      var p := CollidesByIdentity(q);
    } else {
      forall p: KeyParts | p.WellFormed() && p.Key() == q.Key() ensures p.Agrees(q) {
        NoCollision(p, q);
      }
    }
  }

  /** An instance, with the separator in one request's name and in the other's identity. */
  lemma KeysCanCollide(p: KeyParts, q: KeyParts)
    requires p == KeyParts("{ a }", None, "{}", "{}" + [SEPARATOR] + "eve")
    requires q == KeyParts("{ a }", Some([SEPARATOR] + "{}"), "{}", "eve")
    ensures p.WellFormed() && q.WellFormed()
    ensures p.Key() == q.Key() && !p.Agrees(q)
  {
    assert p.Key() == "{ a }" + [SEPARATOR] + [SEPARATOR] + "{}" + [SEPARATOR] + "{}" + [SEPARATOR] + "eve";
  }

  // ---- lifetimes -------------------------------------------------------------------------

  /** `secs` is a configured lifetime that this root field falls under. */
  ghost predicate FallsUnder(f: FieldFetch, cfg: CacheConfig, secs: nat) {
    || (f.responseKey == "searchProperties" && secs == cfg.ttlSearchSec)
    || (f.responseKey == "property" && secs == cfg.ttlPropertyReadSec)
    || (f.responseKey == "reviewSummary" && secs == cfg.ttlReviewSummarySec)
    || ((exists i :: 0 <= i < |f.entityFetches| && f.entityFetches[i].route.name == "pricing")
        && secs == cfg.ttlPricingSec)
  }

  ghost predicate PlanFallsUnder(fields: seq<FieldFetch>, cfg: CacheConfig, secs: nat) {
    exists i :: 0 <= i < |fields| && FallsUnder(fields[i], cfg, secs)
  }

  /** The least of them, or the largest 64-bit number where there is none. */
  ghost predicate IsSmallest(fields: seq<FieldFetch>, cfg: CacheConfig, secs: nat) {
    && (forall s :: PlanFallsUnder(fields, cfg, s) ==> secs <= s)
    && (secs == U64_MAX || PlanFallsUnder(fields, cfg, secs))
    && secs <= U64_MAX
  }

  function EntityTtl(fetches: seq<EntityFetch>, cfg: CacheConfig): u64 {
    if fetches == [] then U64_MAX
    else Min(EntityTtl(fetches[..|fetches| - 1], cfg),
             if fetches[|fetches| - 1].route.name == "pricing" then cfg.ttlPricingSec else U64_MAX)
  }

  function FieldTtl(f: FieldFetch, cfg: CacheConfig): u64 {
    var own :=
      if f.responseKey == "searchProperties" then cfg.ttlSearchSec
      else if f.responseKey == "property" then cfg.ttlPropertyReadSec
      else if f.responseKey == "reviewSummary" then cfg.ttlReviewSummarySec
      else U64_MAX;
    Min(own, EntityTtl(f.entityFetches, cfg))
  }

  function SmallestTtl(fields: seq<FieldFetch>, cfg: CacheConfig): u64 {
    if fields == [] then U64_MAX else Min(SmallestTtl(fields[..|fields| - 1], cfg), FieldTtl(fields[|fields| - 1], cfg))
  }

  /** How long a response lives: the smallest lifetime that applies, at least one second, else a minute. */
  function Lifetime(fields: seq<FieldFetch>, cfg: CacheConfig): nat {
    var secs := SmallestTtl(fields, cfg);
    if secs == U64_MAX then 60 else if secs < 1 then 1 else secs
  }

  lemma {:induction false} EntityTtlIsPricing(fetches: seq<EntityFetch>, cfg: CacheConfig)
    ensures EntityTtl(fetches, cfg)
         == if exists i :: 0 <= i < |fetches| && fetches[i].route.name == "pricing" then cfg.ttlPricingSec else U64_MAX
  {
    if fetches != [] {
      var init, last := fetches[..|fetches| - 1], fetches[|fetches| - 1];
      EntityTtlIsPricing(init, cfg);
      if i :| 0 <= i < |fetches| && fetches[i].route.name == "pricing" {
        assert i < |init| ==> init[i].route.name == "pricing";
      }
    }
  }

  lemma {:induction false} SmallestTtlIsSmallest(fields: seq<FieldFetch>, cfg: CacheConfig)
    ensures IsSmallest(fields, cfg, SmallestTtl(fields, cfg))
  {
    if fields != [] {
      var init, last := fields[..|fields| - 1], fields[|fields| - 1];
      SmallestTtlIsSmallest(init, cfg);
      EntityTtlIsPricing(last.entityFetches, cfg);
      var secs := SmallestTtl(fields, cfg);
      forall s | PlanFallsUnder(fields, cfg, s) ensures secs <= s {
        var i :| 0 <= i < |fields| && FallsUnder(fields[i], cfg, s);
        if i < |init| {
          assert FallsUnder(init[i], cfg, s);
          assert PlanFallsUnder(init, cfg, s);
        }
      }
      if secs != U64_MAX {
        if secs == SmallestTtl(init, cfg) {
          var i :| 0 <= i < |init| && FallsUnder(init[i], cfg, secs);
          assert FallsUnder(fields[i], cfg, secs);
        } else {
          assert FallsUnder(fields[|fields| - 1], cfg, secs);
        }
      }
    }
  }

  function AtLeastOne(secs: nat): nat { if secs < 1 then 1 else secs }

  /** The plan falls under some lifetime below the largest 64-bit number, which stands for none. */
  ghost predicate HasLifetime(fields: seq<FieldFetch>, cfg: CacheConfig) {
    exists s: nat :: PlanFallsUnder(fields, cfg, s) && s < U64_MAX
  }

  /**
   * A response lives for the least lifetime that its plan falls under, but a second at least; it lives
   * a minute when it falls under none.
   */
  lemma LifetimeIsTheSmallest(fields: seq<FieldFetch>, cfg: CacheConfig)
    ensures Lifetime(fields, cfg) >= 1
    ensures if HasLifetime(fields, cfg)
            then
              && (exists s: nat :: PlanFallsUnder(fields, cfg, s) && Lifetime(fields, cfg) == AtLeastOne(s))
              && forall s: nat :: PlanFallsUnder(fields, cfg, s) ==> Lifetime(fields, cfg) <= AtLeastOne(s)
            else Lifetime(fields, cfg) == 60
  {
    SmallestTtlIsSmallest(fields, cfg);
    hide SmallestTtl, PlanFallsUnder;
  }

  method TtlForPlan(fields: seq<FieldFetch>, cfg: CacheConfig) returns (ttl: nat)
    ensures ttl == Lifetime(fields, cfg)
  {
    var secs: u64 := U64_MAX;
    for i := 0 to |fields|
      invariant secs == SmallestTtl(fields[..i], cfg)
    {
      assert fields[..i + 1][..i] == fields[..i];
      var f := fields[i];
      assert SmallestTtl(fields[..i + 1], cfg) == Min(secs, FieldTtl(f, cfg));
      hide SmallestTtl;
      if f.responseKey == "searchProperties" {
        secs := Min(secs, cfg.ttlSearchSec);
      }
      if f.responseKey == "property" {
        secs := Min(secs, cfg.ttlPropertyReadSec);
      }
      if f.responseKey == "reviewSummary" {
        secs := Min(secs, cfg.ttlReviewSummarySec);
      }
      secs := CapByEntities(secs, f.entityFetches, cfg);
    }
    assert fields[..|fields|] == fields;
    ttl := if secs == U64_MAX then 60 else if secs < 1 then 1 else secs;
  }

  /** The inner loop. */
  method CapByEntities(own: u64, fetches: seq<EntityFetch>, cfg: CacheConfig) returns (secs: u64)
    ensures secs == Min(own, EntityTtl(fetches, cfg))
  {
    secs := own;
    for j := 0 to |fetches|
      invariant secs == Min(own, EntityTtl(fetches[..j], cfg))
    {
      assert fetches[..j + 1][..j] == fetches[..j];
      if fetches[j].route.name == "pricing" {
        secs := Min(secs, cfg.ttlPricingSec);
      }
    }
    assert fetches[..|fetches|] == fetches;
  }

  // ---- the store ---------------------------------------------------------------------------

  /** A stored body, and when the store lets go of it. */
  datatype Entry = Entry(body: GraphQLResponse, expires: int)

  type Store = map<string, Entry>

  function Get(store: Store, key: string, now: int): Option<GraphQLResponse> {
    if key in store && now < store[key].expires then Some(store[key].body) else None
  }

  function Set(store: Store, key: string, ttl: nat, body: GraphQLResponse, now: int): Store {
    store[key := Entry(body, now + if ttl < 1 then 1 else ttl)]
  }
}
