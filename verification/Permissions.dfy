/**
 * Role and city based decisions: the permission service with its cache of positive answers, and the
 * user context service, which answers the same questions by listing permissions.
 */
module Permissions {
  import opened Common
  import opened CityHierarchy

  datatype Role = SUPER_ADMIN | CITY_ADMIN | CITIZEN

  datatype Assignment = Assignment(userId: string, cityId: string, role: Role, canManageAdmins: bool, isActive: bool)

  datatype Permission = Permission(resource: string, action: string, description: Option<string>)

  datatype RolePermission = RolePermission(role: Role, permissionId: string)

  datatype Tables = Tables(cities: seq<City>, assignments: seq<Assignment>,
                           permissions: map<string, Permission>, rolePermissions: seq<RolePermission>)

  /** What the schema guarantees: foreign keys, and one permission per resource and action. */
  ghost predicate ValidTables(t: Tables) {
    && ValidTable(t.cities)
    && (forall rp :: rp in t.rolePermissions ==> rp.permissionId in t.permissions)
    && forall i, j | i in t.permissions && j in t.permissions
         && t.permissions[i].resource == t.permissions[j].resource
         && t.permissions[i].action == t.permissions[j].action :: i == j
  }

  /** A city argument counts only when it is present and not the empty string. */
  predicate HasCity(city: Option<string>) {
    city.Some? && city.value != ""
  }

  function AssignmentsOf(t: Tables, userId: string): seq<Assignment> {
    Active(t.assignments, userId)
  }

  function Active(rows: seq<Assignment>, userId: string): (r: seq<Assignment>)
    ensures forall a :: a in r <==> a in rows && a.userId == userId && a.isActive
  {
    if rows == [] then []
    else (if rows[0].userId == userId && rows[0].isActive then [rows[0]] else []) + Active(rows[1..], userId)
  }

  function CitiesOf(rows: seq<Assignment>): (s: seq<string>)
    ensures |s| == |rows| && forall i :: 0 <= i < |rows| ==> s[i] == rows[i].cityId
  {
    seq(|rows|, i requires 0 <= i < |rows| => rows[i].cityId)
  }

  predicate HasRolePermission(t: Tables, role: Role, resource: string, action: string) {
    || role.SUPER_ADMIN?
    || exists id | id in t.permissions ::
         && t.permissions[id].resource == resource && t.permissions[id].action == action
         && RolePermission(role, id) in t.rolePermissions
  }

  ghost predicate InScope(t: Tables, rows: seq<Assignment>, city: string)
    requires ValidTables(t)
  {
    city in Managed(t.cities, SetOf(CitiesOf(rows)))
  }

  datatype Question = Question(userId: string, resource: string, action: string, city: Option<string>)

  /** The answer of `hasPermission` when nothing is cached. */
  ghost predicate Decide(t: Tables, q: Question)
    requires ValidTables(t)
  {
    var rows := AssignmentsOf(t, q.userId);
    if rows == [] then HasRolePermission(t, CITIZEN, q.resource, q.action)
    else
      && (HasCity(q.city) ==> InScope(t, rows, q.city.value))
      && exists a :: a in rows && HasRolePermission(t, a.role, q.resource, q.action)
  }

  // ---- The cache ------------------------------------------------------------------------------

  /** Keys of the stored `true`s with the second at which Redis drops them. */
  type Cache = map<string, nat>

  const TTL: nat := 300

  predicate Live(cache: Cache, now: nat, key: string) {
    key in cache && now < cache[key]
  }

  function CityPart(city: Option<string>): string {
    if HasCity(city) then ":" + city.value else ""
  }

  /** The part of the key behind the fixed prefix. */
  function Body(q: Question): string {
    q.userId + ":" + (q.resource + ":" + (q.action + CityPart(q.city)))
  }

  function Key(q: Question): string {
    "permission:" + Body(q)
  }

  ghost function Answer(cache: Cache, t: Tables, now: nat, q: Question): bool
    requires ValidTables(t)
  {
    Live(cache, now, Key(q)) || Decide(t, q)
  }

  /** Only a positive answer of a user with assignments is stored, and only when it was computed. */
  ghost function CacheAfter(cache: Cache, t: Tables, now: nat, q: Question): Cache
    requires ValidTables(t)
  {
    if !Live(cache, now, Key(q)) && AssignmentsOf(t, q.userId) != [] && Decide(t, q)
    then cache[Key(q) := now + TTL] else cache
  }

  class PermissionService {
    var cache: Cache

    constructor ()
      ensures cache == map[]
    {
      cache := map[];
    }

    method HasPermission(t: Tables, now: nat, q: Question) returns (granted: bool)
      requires ValidTables(t)
      modifies this
      ensures granted == Answer(old(cache), t, now, q)
      ensures cache == CacheAfter(old(cache), t, now, q)
    {
      var cacheKey := Key(q);
      if Live(cache, now, cacheKey) { return true; }
      var assignments := AssignmentsOf(t, q.userId);
      if |assignments| == 0 {
        return HasRolePermission(t, CITIZEN, q.resource, q.action);
      }
      if HasCity(q.city) {
        var managedCityIds := GetAllManagedCities(t.cities, CitiesOf(assignments));
        if q.city.value !in managedCityIds { return false; }
      }
      for i := 0 to |assignments|
        invariant cache == old(cache)
        invariant forall k :: 0 <= k < i ==> !HasRolePermission(t, assignments[k].role, q.resource, q.action)
      {
        if HasRolePermission(t, assignments[i].role, q.resource, q.action) {
          assert assignments[i] in assignments;
          cache := cache[cacheKey := now + TTL];
          return true;
        }
      }
      return false;
    }
  }

  // ---- What a question asks -----------------------------------------------------------------------

  /** An active assignment of this user. */
  ghost predicate Counts(t: Tables, userId: string, a: Assignment) {
    a in t.assignments && a.userId == userId && a.isActive
  }

  /** The pair is registered, and the role has it. */
  ghost predicate RoleHas(t: Tables, role: Role, resource: string, action: string) {
    exists id :: id in t.permissions
      && t.permissions[id].resource == resource && t.permissions[id].action == action
      && RolePermission(role, id) in t.rolePermissions
  }

  /** The assignment is at the city or at an active ancestor of it. */
  ghost predicate Covers(t: Tables, a: Assignment, city: string)
    requires ValidTables(t)
  {
    a.cityId == city || city in Descendants(t.cities, a.cityId)
  }

  /**
   * The decision, spelt out: who has no active assignment is asked about as a citizen, wherever; and
   * otherwise one assignment must cover the city, if there is one, and one (the same or another) must
   * have a role that has the pair, as SUPER_ADMIN has every pair.
   */
  lemma {:induction false} DecideMeans(t: Tables, q: Question)
    requires ValidTables(t)
    ensures (forall a :: !Counts(t, q.userId, a)) ==> (Decide(t, q) <==> RoleHas(t, CITIZEN, q.resource, q.action))
    ensures (exists a :: Counts(t, q.userId, a)) ==>
              (Decide(t, q) <==>
               && (q.city in {None, Some("")} || exists a :: Counts(t, q.userId, a) && Covers(t, a, q.city.value))
               && exists a :: Counts(t, q.userId, a)
                    && (a.role == SUPER_ADMIN || RoleHas(t, a.role, q.resource, q.action)))
  {
    var rows := AssignmentsOf(t, q.userId);
    RowsCount(t, q.userId);
    RoleMeans(t, CITIZEN, q.resource, q.action);
    SomeRoleMeans(t, q);
    if HasCity(q.city) { InScopeMeans(t, q.userId, q.city.value); }
  }

  lemma {:induction false} RowsCount(t: Tables, userId: string)
    ensures forall a :: a in AssignmentsOf(t, userId) <==> Counts(t, userId, a)
    ensures AssignmentsOf(t, userId) != [] <==> exists a :: Counts(t, userId, a)
  {
    var rows := AssignmentsOf(t, userId);
    assert rows != [] ==> Counts(t, userId, rows[0]);
  }

  lemma {:induction false} RoleMeans(t: Tables, role: Role, resource: string, action: string)
    ensures HasRolePermission(t, role, resource, action) <==>
              role == SUPER_ADMIN || RoleHas(t, role, resource, action)
  {
  }

  lemma {:induction false} SomeRoleMeans(t: Tables, q: Question)
    ensures (exists a :: a in AssignmentsOf(t, q.userId) && HasRolePermission(t, a.role, q.resource, q.action)) <==>
            exists a :: Counts(t, q.userId, a)
              && (a.role == SUPER_ADMIN || RoleHas(t, a.role, q.resource, q.action))
  {
    RowsCount(t, q.userId);
    forall a: Assignment
      ensures HasRolePermission(t, a.role, q.resource, q.action) <==>
                a.role == SUPER_ADMIN || RoleHas(t, a.role, q.resource, q.action)
    {
      RoleMeans(t, a.role, q.resource, q.action);
    }
  }

  lemma {:induction false} InScopeMeans(t: Tables, userId: string, city: string)
    requires ValidTables(t)
    ensures InScope(t, AssignmentsOf(t, userId), city) <==>
              exists a :: Counts(t, userId, a) && Covers(t, a, city)
  {
    var rows := AssignmentsOf(t, userId);
    if InScope(t, rows, city) {
      var i :| 0 <= i < |rows| && (rows[i].cityId == city || city in Descendants(t.cities, rows[i].cityId));
      assert Counts(t, userId, rows[i]) && Covers(t, rows[i], city);
    }
    if a :| Counts(t, userId, a) && Covers(t, a, city) {
      var i :| 0 <= i < |rows| && rows[i] == a;
      assert CitiesOf(rows)[i] in SetOf(CitiesOf(rows));
    }
  }

  /**
   * A live entry answers and stays as it is; without one, the decision answers, and a `true` of a user
   * with an active assignment is stored for 300 seconds.
   */
  lemma {:induction false} CacheMeans(cache: Cache, t: Tables, now: nat, q: Question)
    requires ValidTables(t)
    ensures Key(q) in cache && now < cache[Key(q)] ==> Answer(cache, t, now, q) && CacheAfter(cache, t, now, q) == cache
    ensures Key(q) !in cache || cache[Key(q)] <= now ==>
              && (Answer(cache, t, now, q) <==> Decide(t, q))
              && CacheAfter(cache, t, now, q) ==
                   if Decide(t, q) && exists a :: Counts(t, q.userId, a) then cache[Key(q) := now + 300] else cache
  {
    var rows := AssignmentsOf(t, q.userId);
    assert rows != [] ==> Counts(t, q.userId, rows[0]);
  }

  /** The key: the parts of the question, joined by colons, without the city if it is absent or empty. */
  lemma {:induction false} KeyIs(q: Question)
    ensures Key(q) == "permission:" + (q.userId + ":" + (q.resource + ":" + (q.action +
                        if q.city in {None, Some("")} then "" else ":" + q.city.value)))
  {
  }

  predicate ColonFree(s: string) {
    ':' !in s
  }

  predicate ColonFreeQuestion(q: Question) {
    && ColonFree(q.userId) && ColonFree(q.resource) && ColonFree(q.action)
    && (q.city.Some? ==> ColonFree(q.city.value))
  }

  /** The length of the part of `s` before its first colon. */
  ghost function UpToColon(s: string): nat {
    if s == "" || s[0] == ':' then 0 else 1 + UpToColon(s[1..])
  }

  lemma {:induction false} UpToColonIs(a: string, rest: string)
    requires ColonFree(a)
    requires rest == "" || rest[0] == ':'
    ensures UpToColon(a + rest) == |a|
  {
    if a == "" {
      assert a + rest == rest;
    } else {
      assert (a + rest)[1..] == a[1..] + rest;
      UpToColonIs(a[1..], rest);
    }
  }

  /** A colon-free part and what follows it from a colon on can be told apart. */
  lemma {:induction false} SplitAtColon(a: string, ac: string, b: string, bc: string)
    requires ColonFree(a) && ColonFree(b) && a + ac == b + bc
    requires ac == "" || ac[0] == ':'
    requires bc == "" || bc[0] == ':'
    ensures a == b && ac == bc
  {
    UpToColonIs(a, ac);
    UpToColonIs(b, bc);
    assert a == (a + ac)[..|a|] && b == (b + bc)[..|a|];
    assert ac == (a + ac)[|a|..] && bc == (b + bc)[|a|..];
  }

  lemma {:induction false} FirstColon(a: string, b: string, c: string, d: string)
    requires ColonFree(a) && ColonFree(c) && a + ":" + b == c + ":" + d
    ensures a == c && b == d
  {
    assert a + ":" + b == a + (":" + b) && c + ":" + d == c + (":" + d);
    SplitAtColon(a, ":" + b, c, ":" + d);
    DropPrefix(":", b, d);
  }

  lemma {:induction false} DropPrefix(p: string, a: string, b: string)
    requires p + a == p + b
    ensures a == b
  {
    assert a == (p + a)[|p|..] && b == (p + b)[|p|..];
  }

  /** The same question up to an absent city, which is passed as none or as the empty string. */
  ghost predicate SameQuestion(p: Question, q: Question) {
    && p.userId == q.userId && p.resource == q.resource && p.action == q.action
    && HasCity(p.city) == HasCity(q.city) && (HasCity(p.city) ==> p.city == q.city)
  }

  /** Without colons in the names, two questions share a cache key only if they are the same. */
  lemma {:induction false} KeyInjective(p: Question, q: Question)
    requires ColonFreeQuestion(p) && ColonFreeQuestion(q)
    ensures Key(p) == Key(q) <==> SameQuestion(p, q)
  {
    if Key(p) == Key(q) {
      var pc, qc := CityPart(p.city), CityPart(q.city);
      var p3, q3 := p.action + pc, q.action + qc;
      var p2, q2 := p.resource + ":" + p3, q.resource + ":" + q3;
      DropPrefix("permission:", p.userId + ":" + p2, q.userId + ":" + q2);
      FirstColon(p.userId, p2, q.userId, q2);
      FirstColon(p.resource, p3, q.resource, q3);
      SplitAtColon(p.action, pc, q.action, qc);
      if HasCity(p.city) { DropPrefix(":", p.city.value, q.city.value); }
    }
  }

  // ---- When a key belongs to one question ------------------------------------------------------

  ghost function Colons(s: string): nat {
    if s == "" then 0 else (if s[0] == ':' then 1 else 0) + Colons(s[1..])
  }

  lemma {:induction false} ColonsConcat(a: string, b: string)
    ensures Colons(a + b) == Colons(a) + Colons(b)
  {
    if a == "" {
      assert a + b == b;
    } else {
      assert (a + b)[1..] == a[1..] + b;
      ColonsConcat(a[1..], b);
    }
  }

  lemma {:induction false} ColonFreeIff(s: string)
    ensures ColonFree(s) <==> Colons(s) == 0
  {
    if s != "" {
      assert s == [s[0]] + s[1..];
      ColonFreeIff(s[1..]);
    }
  }

  lemma {:induction false} SameBody(p: Question, q: Question)
    ensures Key(p) == Key(q) <==> Body(p) == Body(q)
  {
    if Key(p) == Key(q) { DropPrefix("permission:", Body(p), Body(q)); }
  }

  lemma {:induction false} BodyColons(q: Question)
    ensures Colons(Body(q)) == 2 + Colons(q.userId) + Colons(q.resource) + Colons(q.action) + Colons(CityPart(q.city))
    ensures HasCity(q.city) ==> Colons(CityPart(q.city)) > 0
  {
    var rest := q.action + CityPart(q.city);
    ColonsConcat(q.action, CityPart(q.city));
    ColonsConcat(":", rest);
    ColonsConcat(q.resource, ":" + rest);
    assert q.resource + ":" + rest == q.resource + (":" + rest);
    ColonsConcat(":", q.resource + ":" + rest);
    ColonsConcat(q.userId, ":" + (q.resource + ":" + rest));
    assert Body(q) == q.userId + (":" + (q.resource + ":" + rest));
    if HasCity(q.city) { ColonsConcat(":", q.city.value); }
    assert Colons(":") == 1;
  }

  /** No colon in a name and no city. */
  predicate Plain(q: Question) {
    ColonFree(q.userId) && ColonFree(q.resource) && ColonFree(q.action) && !HasCity(q.city)
  }

  lemma {:induction false} PlainIff(q: Question)
    ensures Plain(q) <==> Colons(Body(q)) == 2
  {
    BodyColons(q);
    ColonFreeIff(q.userId);
    ColonFreeIff(q.resource);
    ColonFreeIff(q.action);
  }

  /** Where the first colon is. */
  lemma {:induction false} SplitFirst(s: string) returns (a: string, b: string)
    requires !ColonFree(s)
    ensures s == a + ":" + b && |a| < |s|
  {
    if s[0] == ':' {
      a, b := "", s[1..];
    } else {
      assert s == [s[0]] + s[1..];
      a, b := SplitFirst(s[1..]);
      a := [s[0]] + a;
    }
  }

  /** A question that is not plain shares its key with another one. */
  lemma {:induction false} Clash(p: Question) returns (q: Question)
    requires !Plain(p)
    ensures Key(q) == Key(p) && !SameQuestion(q, p)
  {
    var rest := p.action + CityPart(p.city);
    if HasCity(p.city) {
      q := Question(p.userId, p.resource, rest, None);
      assert rest + "" == rest;
    } else if !ColonFree(p.userId) {
      var a, b := SplitFirst(p.userId);
      q := Question(a, b, p.resource + ":" + rest, None);
      assert Body(q) == a + ":" + b + ":" + (p.resource + ":" + rest) + "";
    } else if !ColonFree(p.resource) {
      var a, b := SplitFirst(p.resource);
      q := Question(p.userId, a, b + ":" + rest, None);
      assert a + ":" + (b + ":" + rest + "") == a + ":" + b + ":" + rest;
    } else {
      var a, b := SplitFirst(p.action);
      q := Question(p.userId + ":" + p.resource, a, b, None);
      assert rest == a + ":" + b;
      assert Body(q) == p.userId + ":" + (p.resource + ":" + (a + ":" + b)) + "";
    }
    SameBody(p, q);
  }

  /** A question has its key to itself if and only if it has no city and no name of it has a colon. */
  lemma {:induction false} KeyIsOwnIff(p: Question)
    ensures (forall q :: Key(q) == Key(p) ==> SameQuestion(q, p)) <==> Plain(p)
  {
    if Plain(p) {
      forall q | Key(q) == Key(p)
        ensures SameQuestion(q, p)
      {
        SameBody(p, q);
        PlainIff(p);
        PlainIff(q);
        KeyInjective(q, p);
      }
    } else {
      var q := Clash(p);
    }
  }

  /** Tables in which `p` is granted, and of the questions with the same key only those that are the same. */
  function Witness(p: Question): Tables {
    Tables([], [Assignment(p.userId, if HasCity(p.city) then p.city.value else "", CITY_ADMIN, false, true)],
           map["1" := Permission(p.resource, p.action, None)], [RolePermission(CITY_ADMIN, "1")])
  }

  lemma {:induction false} WitnessDecides(p: Question, q: Question)
    requires Key(p) == Key(q)
    ensures ValidTables(Witness(p)) && AssignmentsOf(Witness(p), p.userId) != []
    ensures Decide(Witness(p), p)
    ensures Decide(Witness(p), q) ==> SameQuestion(p, q)
  {
    var t := Witness(p);
    var a := t.assignments[0];
    NoCities({});
    OneAssignment(t, a);
    assert t.permissions["1"].resource == p.resource && RolePermission(CITY_ADMIN, "1") in t.rolePermissions;
    assert HasRolePermission(t, a.role, p.resource, p.action);
    assert CitiesOf([a]) == [a.cityId] && a.cityId in SetOf(CitiesOf([a]));
    if Decide(t, q) && q.userId == p.userId && q.resource == p.resource && q.action == p.action {
      SameBody(p, q);
      DropPrefix(p.userId + ":", p.resource + ":" + (p.action + CityPart(p.city)),
          q.resource + ":" + (q.action + CityPart(q.city)));
      DropPrefix(p.resource + ":", p.action + CityPart(p.city), q.action + CityPart(q.city));
      DropPrefix(p.action, CityPart(p.city), CityPart(q.city));
      if HasCity(p.city) && HasCity(q.city) { DropPrefix(":", p.city.value, q.city.value); }
    }
  }

  /** What `hasPermission` answers to `q` right after it has answered `p` with an empty cache. */
  ghost function AnswerAfter(t: Tables, now: nat, p: Question, q: Question): bool
    requires ValidTables(t)
  {
    Answer(CacheAfter(map[], t, now, p), t, now, q)
  }

  /** The answer is wrong exactly when the two share a key and the cached truth of `p` is not one of `q`. */
  lemma {:induction false} WrongAnswerIff(t: Tables, now: nat, p: Question, q: Question)
    requires ValidTables(t)
    ensures AnswerAfter(t, now, p, q) != Decide(t, q) <==>
              Key(p) == Key(q) && AssignmentsOf(t, p.userId) != [] && Decide(t, p) && !Decide(t, q)
  {
  }

  /** Asking `p` never makes a later answer wrong, in any tables, if and only if `p` is plain. */
  lemma {:induction false} NeverMisleadsIff(p: Question)
    ensures (forall t: Tables, now: nat, q :: ValidTables(t) ==> AnswerAfter(t, now, p, q) == Decide(t, q)) <==>
        Plain(p)
  {
    if Plain(p) {
      KeyIsOwnIff(p);
      forall t: Tables, now: nat, q | ValidTables(t)
        ensures AnswerAfter(t, now, p, q) == Decide(t, q)
      {
        WrongAnswerIff(t, now, p, q);
        if Key(q) == Key(p) { SameDecision(t, p, q); }
      }
    } else {
      var q := Clash(p);
      WitnessDecides(p, q);
      WrongAnswerIff(Witness(p), 0, p, q);
      assert AnswerAfter(Witness(p), 0, p, q) != Decide(Witness(p), q);
    }
  }

  /** With a city, or with a colon in a name, a cached `true` can answer another question wrongly. */
  lemma {:induction false} ColonsCollide()
    ensures var p := Question("u", "listings", "read", Some("c"));
            var q := Question("u", "listings", "read:c", None);
            && Key(p) == Key(q) && !SameQuestion(p, q)
            && ValidTables(Witness(p)) && AnswerAfter(Witness(p), 0, p, q) && !Decide(Witness(p), q)
  {
  }

  // ---- Runs -----------------------------------------------------------------------------------

  datatype Event = Change(tables: Tables) | Tick(seconds: nat) | Ask(question: Question)

  datatype World = World(tables: Tables, now: nat, cache: Cache)

  ghost predicate LegalEvents(events: seq<Event>) {
    forall e :: e in events && e.Change? ==> ValidTables(e.tables)
  }

  ghost predicate ColonFreeEvents(events: seq<Event>) {
    forall e :: e in events && e.Ask? ==> ColonFreeQuestion(e.question)
  }

  ghost function Step(w: World, e: Event): (w': World)
    requires ValidTables(w.tables)
    requires e.Change? ==> ValidTables(e.tables)
    ensures ValidTables(w'.tables)
  {
    match e
    case Change(tables) => w.(tables := tables)
    case Tick(seconds) => w.(now := w.now + seconds)
    case Ask(q) => w.(cache := CacheAfter(w.cache, w.tables, w.now, q))
  }

  /** Each event changes its part of the world and no other. */
  lemma {:induction false} EventMeans(w: World, e: Event)
    requires ValidTables(w.tables) && (e.Change? ==> ValidTables(e.tables))
    ensures e.Change? ==> Step(w, e) == World(e.tables, w.now, w.cache)
    ensures e.Tick? ==> Step(w, e) == World(w.tables, w.now + e.seconds, w.cache)
    ensures e.Ask? ==> Step(w, e) == World(w.tables, w.now, CacheAfter(w.cache, w.tables, w.now, e.question))
  {
  }

  /** The world before event `i` of a run. */
  ghost function At(start: World, events: seq<Event>, i: nat): (w: World)
    requires ValidTables(start.tables) && LegalEvents(events) && i <= |events|
    ensures ValidTables(w.tables)
    decreases i
  {
    if i == 0 then start else Step(At(start, events, i - 1), events[i - 1])
  }

  lemma {:induction false} ClockMonotone(start: World, events: seq<Event>, i: nat, j: nat)
    requires ValidTables(start.tables) && LegalEvents(events) && i <= j <= |events|
    ensures At(start, events, i).now <= At(start, events, j).now
    decreases j
  {
    if i < j { ClockMonotone(start, events, i, j - 1); }
  }

  /** At event `j` this question, or one with the same key, was asked and computed to be true. */
  ghost predicate ComputedTrueAt(start: World, events: seq<Event>, j: nat, key: string)
    requires ValidTables(start.tables) && LegalEvents(events) && j < |events|
  {
    events[j].Ask? && Key(events[j].question) == key && Decide(At(start, events, j).tables, events[j].question)
  }

  /** The entry of this key was written when event `j` computed the answer. */
  ghost predicate WrittenAt(start: World, events: seq<Event>, j: nat, key: string, expiry: nat)
    requires ValidTables(start.tables) && LegalEvents(events) && j < |events|
  {
    ComputedTrueAt(start, events, j, key) && expiry == At(start, events, j).now + TTL
  }

  /** One event leaves an entry as it was or writes it from a true answer. */
  lemma {:induction false} EntryStep(w: World, e: Event, key: string)
    requires ValidTables(w.tables) && (e.Change? ==> ValidTables(e.tables))
    requires key in Step(w, e).cache
    ensures (key in w.cache && Step(w, e).cache[key] == w.cache[key])
            || (e.Ask? && Key(e.question) == key && Decide(w.tables, e.question)
                && Step(w, e).cache[key] == w.now + TTL)
  {
  }

  /** Every cache entry goes back to an event that computed it to be true. */
  lemma {:induction false} CacheJustified(start: World, events: seq<Event>, i: nat, key: string, expiry: nat)
    requires ValidTables(start.tables) && LegalEvents(events) && i <= |events| && start.cache == map[]
    requires key in At(start, events, i).cache && At(start, events, i).cache[key] == expiry
    ensures exists j: nat :: j < i && WrittenAt(start, events, j, key, expiry)
    decreases i
  {
    var w := At(start, events, i - 1);
    assert events[i - 1] in events;
    assert At(start, events, i) == Step(w, events[i - 1]);
    EntryStep(w, events[i - 1], key);
    if key in w.cache && w.cache[key] == expiry {
      CacheJustified(start, events, i - 1, key, expiry);
    } else {
      assert WrittenAt(start, events, i - 1, key, expiry);
    }
  }

  /**
   * Over any run of table changes, clock ticks and colon-free questions: an answer `false` is the truth of the
   * moment, and an answer `true` was the truth at some earlier or present question less than 300
   * seconds ago.
   */
  lemma {:induction false} AnswersAreFresh(start: World, events: seq<Event>, i: nat)
    requires ValidTables(start.tables) && LegalEvents(events) && ColonFreeEvents(events) && start.cache == map[]
    requires i < |events| && events[i].Ask?
    ensures var w, q := At(start, events, i), events[i].question;
            if Answer(w.cache, w.tables, w.now, q)
            then exists j: nat :: j <= i && events[j].Ask? && SameQuestion(events[j].question, q)
                   && Decide(At(start, events, j).tables, q)
                   && At(start, events, j).now <= w.now < At(start, events, j).now + TTL
            else !Decide(w.tables, q)
  {
    var w, q := At(start, events, i), events[i].question;
    assert events[i] in events;
    if Live(w.cache, w.now, Key(q)) {
      CacheJustified(start, events, i, Key(q), w.cache[Key(q)]);
      var j: nat :| j < i && WrittenAt(start, events, j, Key(q), w.cache[Key(q)]);
      assert events[j] in events;
      KeyInjective(events[j].question, q);
      ClockMonotone(start, events, j, i);
      SameDecision(At(start, events, j).tables, events[j].question, q);
    } else if Decide(w.tables, q) {
      assert SameQuestion(events[i].question, q);
    }
  }

  lemma {:induction false} SameDecision(t: Tables, p: Question, q: Question)
    requires ValidTables(t) && SameQuestion(p, q)
    ensures Decide(t, p) == Decide(t, q)
  {
  }

  // ---- The listing of permissions ---------------------------------------------------------------

  ghost predicate GrantedTo(t: Tables, role: Role, p: Permission) {
    exists id :: id in t.permissions && t.permissions[id] == p && RolePermission(role, id) in t.rolePermissions
  }

  method GetRolePermissions(t: Tables, role: Role) returns (perms: seq<Permission>)
    requires ValidTables(t)
    ensures forall p :: p in perms <==> GrantedTo(t, role, p)
  {
    perms := [];
    for i := 0 to |t.rolePermissions|
      invariant forall p :: p in perms <==>
        exists id :: id in t.permissions && t.permissions[id] == p && RolePermission(role, id) in t.rolePermissions[..i]
    {
      var rp := t.rolePermissions[i];
      assert rp in t.rolePermissions;
      assert t.rolePermissions[..i + 1] == t.rolePermissions[..i] + [rp];
      if rp.role == role {
        perms := perms + [t.permissions[rp.permissionId]];
      }
    }
    assert t.rolePermissions[..|t.rolePermissions|] == t.rolePermissions;
  }

  ghost predicate IsSuperAdmin(rows: seq<Assignment>) {
    exists a :: a in rows && a.role.SUPER_ADMIN?
  }

  /** The permissions `getUserEffectivePermissions` draws from. */
  ghost predicate Effective(t: Tables, userId: string, city: Option<string>, p: Permission)
    requires ValidTables(t)
  {
    var rows := AssignmentsOf(t, userId);
    if rows == [] then GrantedTo(t, CITIZEN, p)
    else if IsSuperAdmin(rows) then p in t.permissions.Values
    else
      && (HasCity(city) ==> InScope(t, rows, city.value))
      && exists a :: a in rows && GrantedTo(t, a.role, p)
  }

  /** The permissions on offer: to a SUPER_ADMIN all there are, wherever; otherwise those of the decision. */
  lemma {:induction false} EffectiveMeans(t: Tables, userId: string, city: Option<string>, p: Permission)
    requires ValidTables(t)
    ensures (forall a :: !Counts(t, userId, a)) ==> (Effective(t, userId, city, p) <==> GrantedTo(t, CITIZEN, p))
    ensures (exists a :: Counts(t, userId, a) && a.role == SUPER_ADMIN) ==>
              (Effective(t, userId, city, p) <==> exists id :: id in t.permissions && t.permissions[id] == p)
    ensures (exists a :: Counts(t, userId, a)) && (forall a :: Counts(t, userId, a) ==> a.role != SUPER_ADMIN) ==>
              (Effective(t, userId, city, p) <==>
               && (city in {None, Some("")} || exists a :: Counts(t, userId, a) && Covers(t, a, city.value))
               && exists a :: Counts(t, userId, a) && GrantedTo(t, a.role, p))
  {
    RowsCount(t, userId);
    if HasCity(city) { InScopeMeans(t, userId, city.value); }
  }

  function NameKey(p: Permission): string {
    p.resource + ":" + p.action
  }

  predicate ColonFreeNames(t: Tables) {
    forall id | id in t.permissions :: ColonFree(t.permissions[id].resource) && ColonFree(t.permissions[id].action)
  }

  /** Some permission of the list has the same name key. */
  ghost predicate NamedIn(perms: seq<Permission>, p: Permission) {
    exists k :: k in perms && NameKey(k) == NameKey(p)
  }

  /** Every permission of `wanted` has its name key among `all`. */
  ghost predicate NamesCover(all: seq<Permission>, wanted: seq<Permission>) {
    forall p :: p in wanted ==> NamedIn(all, p)
  }

  /** No name key twice. */
  ghost predicate DistinctNames(perms: seq<Permission>) {
    forall i, j :: 0 <= i < j < |perms| ==> NameKey(perms[i]) != NameKey(perms[j])
  }

  lemma {:induction false} NewName(perms: seq<Permission>, p: Permission)
    requires DistinctNames(perms) && forall k :: k in perms ==> NameKey(k) != NameKey(p)
    ensures DistinctNames(perms + [p])
  {
  }

  /** Merge `perms` into a list that keeps the first permission seen for each name key. */
  method AddAll(soFar: seq<Permission>, perms: seq<Permission>) returns (all: seq<Permission>)
    requires DistinctNames(soFar)
    ensures DistinctNames(all)
    ensures soFar <= all && NamesCover(all, perms)
    ensures forall p :: p in all ==> p in soFar || p in perms
  {
    all := soFar;
    for i := 0 to |perms|
      invariant soFar <= all && DistinctNames(all)
      invariant forall p :: p in all ==> p in soFar || p in perms
      invariant NamesCover(all, perms[..i])
    {
      assert perms[..i + 1] == perms[..i] + [perms[i]];
      if !exists k | k in all :: NameKey(k) == NameKey(perms[i]) {
        NewName(all, perms[i]);
        assert perms[i] in all + [perms[i]];
        assert forall k :: k in all ==> k in all + [perms[i]];
        all := all + [perms[i]];
      }
    }
    assert perms[..|perms|] == perms;
  }

  ghost predicate RoleCovered(t: Tables, role: Role, perms: seq<Permission>) {
    forall p :: GrantedTo(t, role, p) ==> NamedIn(perms, p)
  }

  /** The union over the user's roles. */
  method MergeRoles(t: Tables, assignments: seq<Assignment>) returns (perms: seq<Permission>)
    requires ValidTables(t)
    ensures forall p :: p in perms ==> exists a :: a in assignments && GrantedTo(t, a.role, p)
    ensures forall a :: a in assignments ==> RoleCovered(t, a.role, perms)
    ensures DistinctNames(perms)
  {
    perms := [];
    var roleSet: set<Role> := {};
    for i := 0 to |assignments|
      invariant forall p :: p in perms ==> exists a :: a in assignments && GrantedTo(t, a.role, p)
      invariant DistinctNames(perms)
      invariant forall k :: 0 <= k < i ==> assignments[k].role in roleSet
      invariant forall r :: r in roleSet ==> RoleCovered(t, r, perms)
    {
      var role := assignments[i].role;
      if role !in roleSet {
        var rolePerms := GetRolePermissions(t, role);
        var merged := AddAll(perms, rolePerms);
        forall r | r in roleSet
          ensures RoleCovered(t, r, merged)
        {
          forall p | GrantedTo(t, r, p)
            ensures NamedIn(merged, p)
          {
            var k :| k in perms && NameKey(k) == NameKey(p);
            assert k in merged;
          }
        }
        assert assignments[i] in assignments;
        perms := merged;
        roleSet := roleSet + {role};
      }
    }
  }

  method GetUserEffectivePermissions(t: Tables, userId: string, city: Option<string>) returns (perms: seq<Permission>)
    requires ValidTables(t)
    ensures forall p :: p in perms ==> Effective(t, userId, city, p)
    ensures forall p :: Effective(t, userId, city, p) ==> NamedIn(perms, p)
    ensures AssignmentsOf(t, userId) != [] && !IsSuperAdmin(AssignmentsOf(t, userId)) ==> DistinctNames(perms)
  {
    var assignments := AssignmentsOf(t, userId);
    if |assignments| == 0 {
      perms := GetRolePermissions(t, CITIZEN);
      return;
    }
    var hasSuperAdmin := exists a | a in assignments :: a.role.SUPER_ADMIN?;
    if hasSuperAdmin {
      perms := AllPermissions(t);
      return;
    }
    if HasCity(city) {
      var managedCityIds := GetAllManagedCities(t.cities, CitiesOf(assignments));
      if city.value !in managedCityIds { return []; }
    }
    forall p
      ensures Effective(t, userId, city, p) <==> exists a :: a in assignments && GrantedTo(t, a.role, p)
    {
    }
    perms := MergeRoles(t, assignments);
  }

  method AllPermissions(t: Tables) returns (perms: seq<Permission>)
    ensures forall p :: p in perms <==> p in t.permissions.Values
    ensures |perms| == |t.permissions|
  {
    perms := [];
    var ids := t.permissions.Keys;
    while ids != {}
      invariant ids <= t.permissions.Keys && |perms| + |ids| == |t.permissions|
      invariant forall p :: p in perms <==> exists id :: id in t.permissions && id !in ids && t.permissions[id] == p
    {
      var id :| id in ids;
      perms := perms + [t.permissions[id]];
      ids := ids - {id};
    }
  }

  /** The pair is on offer in the listing. */
  ghost predicate Lists(t: Tables, q: Question)
    requires ValidTables(t)
  {
    exists p :: Effective(t, q.userId, q.city, p) && p.resource == q.resource && p.action == q.action
  }

  /** With colon-free names the returned list offers exactly the effective pairs. */
  lemma {:induction false} ListingIsExact(t: Tables, q: Question, perms: seq<Permission>)
    requires ValidTables(t) && ColonFreeNames(t)
    requires forall p :: p in perms ==> Effective(t, q.userId, q.city, p)
    requires forall p :: Effective(t, q.userId, q.city, p) ==> NamedIn(perms, p)
    ensures Lists(t, q) <==> exists p :: p in perms && p.resource == q.resource && p.action == q.action
  {
    if p :| Effective(t, q.userId, q.city, p) && p.resource == q.resource && p.action == q.action {
      var k := ListedAs(t, q, perms, p);
      assert k in perms && k.resource == q.resource && k.action == q.action;
    }
  }

  lemma {:induction false} ListedAs(t: Tables, q: Question, perms: seq<Permission>, p: Permission)
    returns (k: Permission)
    requires ValidTables(t) && ColonFreeNames(t) && Effective(t, q.userId, q.city, p)
    requires forall k :: k in perms ==> Effective(t, q.userId, q.city, k)
    requires NamedIn(perms, p)
    ensures k in perms && k.resource == p.resource && k.action == p.action
  {
    k :| k in perms && NameKey(k) == NameKey(p);
    SameNames(t, q, k, p);
  }

  lemma {:induction false} SameNames(t: Tables, q: Question, k: Permission, p: Permission)
    requires ValidTables(t) && ColonFreeNames(t)
    requires Effective(t, q.userId, q.city, k) && Effective(t, q.userId, q.city, p) && NameKey(k) == NameKey(p)
    ensures k.resource == p.resource && k.action == p.action
  {
    EffectiveIsStored(t, q.userId, q.city, p);
    EffectiveIsStored(t, q.userId, q.city, k);
    FirstColon(k.resource, k.action, p.resource, p.action);
  }

  lemma {:induction false} EffectiveIsStored(t: Tables, userId: string, city: Option<string>, p: Permission)
    requires ValidTables(t) && Effective(t, userId, city, p)
    ensures p in t.permissions.Values
  {
  }

  predicate PairExists(t: Tables, resource: string, action: string) {
    exists id | id in t.permissions :: t.permissions[id].resource == resource && t.permissions[id].action == action
  }

  /**
   * The decision and the listing agree for every user without a SUPER_ADMIN assignment. For one
   * with such an assignment they agree exactly when the city is in scope (or absent) for a pair that
   * exists, or out of scope for a pair that does not.
   */
  lemma {:induction false} DecisionAgreesWithListing(t: Tables, q: Question)
    requires ValidTables(t)
    ensures !IsSuperAdmin(AssignmentsOf(t, q.userId)) ==> (Decide(t, q) <==> Lists(t, q))
    ensures IsSuperAdmin(AssignmentsOf(t, q.userId)) ==>
              ((Decide(t, q) <==> Lists(t, q)) <==>
               ((HasCity(q.city) ==> InScope(t, AssignmentsOf(t, q.userId), q.city.value))
                <==> PairExists(t, q.resource, q.action)))
  {
  }

  lemma {:induction false} OneAssignment(t: Tables, a: Assignment)
    requires t.assignments == [a] && a.isActive
    ensures AssignmentsOf(t, a.userId) == [a]
  {
    assert t.assignments[1..] == [] && Active(t.assignments, a.userId) == [a] + Active([], a.userId);
  }

  lemma {:induction false} NoCities(ids: set<string>)
    ensures ValidTable([]) && Managed([], ids) == ids
  {
    assert CityHierarchy.Rows([]) == [];
    ValidTableMeans([]);
    ManagedIsLeast([], ids);
    assert ClosedDownwards([], ids);
  }

  /** A super admin of city "c1", and one pair there is. */
  function SuperAdminTables(): Tables {
    Tables([], [Assignment("u", "c1", SUPER_ADMIN, false, true)], map["1" := Permission("listings", "read", None)], [])
  }

  lemma {:induction false} SuperAdminFacts()
    ensures ValidTables(SuperAdminTables()) && IsSuperAdmin(AssignmentsOf(SuperAdminTables(), "u"))
    ensures forall city :: InScope(SuperAdminTables(), AssignmentsOf(SuperAdminTables(), "u"), city) <==> city == "c1"
  {
    var a := Assignment("u", "c1", SUPER_ADMIN, false, true);
    NoCities({"c1"});
    OneAssignment(SuperAdminTables(), a);
    assert CitiesOf([a]) == ["c1"] && SetOf(["c1"]) == {"c1"};
    assert a in [a];
  }

  /** For them a pair elsewhere is listed but not granted, and an unknown pair granted but not listed. */
  lemma {:induction false} SuperAdminDisagrees()
    ensures var t := SuperAdminTables();
            var elsewhere, unknown :=
              Question("u", "listings", "read", Some("c2")), Question("u", "users", "fly", None);
            && ValidTables(t)
            && !Decide(t, elsewhere) && Lists(t, elsewhere)
            && Decide(t, unknown) && !Lists(t, unknown)
  {
    var t := SuperAdminTables();
    SuperAdminFacts();
    assert t.permissions["1"] in t.permissions.Values;
    assert Effective(t, "u", Some("c2"), t.permissions["1"]);
    DecisionAgreesWithListing(t, Question("u", "users", "fly", None));
  }

  // ---- City decisions ---------------------------------------------------------------------------

  function Admins(rows: seq<Assignment>): (r: seq<Assignment>)
    ensures forall a :: a in r <==> a in rows && a.role.CITY_ADMIN?
  {
    if rows == [] then []
    else (if rows[0].role.CITY_ADMIN? then [rows[0]] else []) + Admins(rows[1..])
  }

  function AdminManagers(rows: seq<Assignment>): (r: seq<Assignment>)
    ensures forall a :: a in r <==> a in rows && a.role.CITY_ADMIN? && a.canManageAdmins
  {
    if rows == [] then []
    else (if rows[0].role.CITY_ADMIN? && rows[0].canManageAdmins then [rows[0]] else []) + AdminManagers(rows[1..])
  }

  /** Some assignment that passes `choose` is at `city` or at an active ancestor of it. */
  ghost predicate CoveredBy(t: Tables, rows: seq<Assignment>, city: string)
    requires ValidTables(t)
  {
    exists a :: a in rows && (a.cityId == city || city in Descendants(t.cities, a.cityId))
  }

  lemma {:induction false} ScopeIsCover(t: Tables, rows: seq<Assignment>, city: string)
    requires ValidTables(t)
    ensures InScope(t, rows, city) <==> CoveredBy(t, rows, city)
  {
  }

  ghost predicate MayManageAdmins(t: Tables, userId: string, city: string)
    requires ValidTables(t)
  {
    var rows := AssignmentsOf(t, userId);
    IsSuperAdmin(rows) || CoveredBy(t, AdminManagers(rows), city)
  }

  ghost predicate MayManage(t: Tables, userId: string, city: string)
    requires ValidTables(t)
  {
    var rows := AssignmentsOf(t, userId);
    IsSuperAdmin(rows) || CoveredBy(t, Admins(rows), city)
  }

  ghost predicate MayAccess(t: Tables, userId: string, city: string)
    requires ValidTables(t)
  {
    var rows := AssignmentsOf(t, userId);
    IsSuperAdmin(rows) || Admins(rows) == [] || CoveredBy(t, Admins(rows), city)
  }

  method CanManageCityAdmins(t: Tables, userId: string, targetCityId: string) returns (can: bool)
    requires ValidTables(t)
    ensures can <==> MayManageAdmins(t, userId, targetCityId)
  {
    var assignments := AssignmentsOf(t, userId);
    if exists a | a in assignments :: a.role.SUPER_ADMIN? { return true; }
    var managers := AdminManagers(assignments);
    var managedCityIds := GetAllManagedCities(t.cities, CitiesOf(managers));
    ScopeIsCover(t, managers, targetCityId);
    return targetCityId in managedCityIds;
  }

  method CanManageCity(t: Tables, userId: string, cityId: string) returns (can: bool)
    requires ValidTables(t)
    ensures can <==> MayManage(t, userId, cityId)
  {
    var assignments := AssignmentsOf(t, userId);
    if exists a | a in assignments :: a.role.SUPER_ADMIN? { return true; }
    var admins := Admins(assignments);
    if |admins| == 0 { return false; }
    var managedCityIds := GetAllManagedCities(t.cities, CitiesOf(admins));
    ScopeIsCover(t, admins, cityId);
    return cityId in managedCityIds;
  }

  method CanAccessCity(t: Tables, userId: string, cityId: string) returns (can: bool)
    requires ValidTables(t)
    ensures can <==> MayAccess(t, userId, cityId)
  {
    var assignments := AssignmentsOf(t, userId);
    if exists a | a in assignments :: a.role.SUPER_ADMIN? { return true; }
    var admins := Admins(assignments);
    if |admins| > 0 {
      var managedCityIds := GetAllManagedCities(t.cities, CitiesOf(admins));
      ScopeIsCover(t, admins, cityId);
      return cityId in managedCityIds;
    }
    return true;
  }

  /**
   * The three rights, spelt out: a SUPER_ADMIN has them everywhere; a CITY_ADMIN manages the cities
   * covered, and manages their admins if the assignment says so; and everyone accesses those cities,
   * or every city without an assignment as CITY_ADMIN.
   */
  lemma {:induction false} RightsMean(t: Tables, userId: string, city: string)
    requires ValidTables(t)
    ensures MayManageAdmins(t, userId, city) <==>
              exists a :: Counts(t, userId, a)
                && (a.role == SUPER_ADMIN || (a.role == CITY_ADMIN && a.canManageAdmins && Covers(t, a, city)))
    ensures MayManage(t, userId, city) <==>
              exists a :: Counts(t, userId, a)
                && (a.role == SUPER_ADMIN || (a.role == CITY_ADMIN && Covers(t, a, city)))
    ensures MayAccess(t, userId, city) <==>
              || (forall a :: Counts(t, userId, a) ==> a.role != CITY_ADMIN)
              || exists a :: Counts(t, userId, a)
                   && (a.role == SUPER_ADMIN || (a.role == CITY_ADMIN && Covers(t, a, city)))
  {
    var rows := AssignmentsOf(t, userId);
    assert forall a :: a in rows <==> Counts(t, userId, a);
    assert Admins(rows) != [] ==> Admins(rows)[0] in rows;
    CoveredMeans(t, Admins(rows), city);
    CoveredMeans(t, AdminManagers(rows), city);
  }

  lemma {:induction false} CoveredMeans(t: Tables, rows: seq<Assignment>, city: string)
    requires ValidTables(t)
    ensures CoveredBy(t, rows, city) <==> exists a :: a in rows && Covers(t, a, city)
  {
    if a :| a in rows && (a.cityId == city || city in Descendants(t.cities, a.cityId)) { assert Covers(t, a, city); }
  }

  /** Managing admins implies managing, and managing implies access. */
  lemma {:induction false} RightsAreOrdered(t: Tables, userId: string, city: string)
    requires ValidTables(t)
    ensures MayManageAdmins(t, userId, city) ==> MayManage(t, userId, city)
    ensures MayManage(t, userId, city) ==> MayAccess(t, userId, city)
  {
  }

  /** All three rights extend to every city the descent finds below. */
  lemma {:induction false} RightsReachDown(t: Tables, userId: string, city: string, below: string)
    requires ValidTables(t) && below in Descendants(t.cities, city)
    ensures MayManageAdmins(t, userId, city) ==> MayManageAdmins(t, userId, below)
    ensures MayManage(t, userId, city) ==> MayManage(t, userId, below)
    ensures MayAccess(t, userId, city) ==> MayAccess(t, userId, below)
  {
    var rows := AssignmentsOf(t, userId);
    CoverReachesDown(t, AdminManagers(rows), city, below);
    CoverReachesDown(t, Admins(rows), city, below);
  }

  lemma {:induction false} CoverReachesDown(t: Tables, rows: seq<Assignment>, city: string, below: string)
    requires ValidTables(t) && below in Descendants(t.cities, city)
    ensures CoveredBy(t, rows, city) ==> CoveredBy(t, rows, below)
  {
    if a :| a in rows && (a.cityId == city || city in Descendants(t.cities, a.cityId)) {
      if a.cityId != city { DescendTransitive(t.cities, a.cityId, city, below); }
    }
  }
}
