/** Capacity-aware assignment (app/services/workflow_engine.py:433-456). Ratios are compared
    exactly, by cross-multiplication. */
module Assignment {
  import opened Common

  datatype User = User(id: nat, active: bool, role: string, capacity: int, skills: set<string>)

  /** max(1, capacity or 10). */
  function Capacity(u: User): (n: nat)
    ensures n >= 1
    ensures u.capacity > 0 ==> n == u.capacity
    ensures u.capacity == 0 ==> n == 10
    ensures u.capacity < 0 ==> n == 1
  {
    if u.capacity == 0 then 10 else if u.capacity < 1 then 1 else u.capacity
  }

  type Loads = map<nat, nat>

  function LoadOf(loads: Loads, u: User): nat {
    if u.id in loads then loads[u.id] else 0
  }

  /** The sort key (load / capacity, load, id), compared without division. */
  predicate Less(loads: Loads, u: User, v: User) {
    var a, b := LoadOf(loads, u) * Capacity(v), LoadOf(loads, v) * Capacity(u);
    if a != b then a < b
    else if LoadOf(loads, u) != LoadOf(loads, v) then LoadOf(loads, u) < LoadOf(loads, v)
    else u.id < v.id
  }

  function Min(loads: Loads, users: seq<User>): User
    requires users != []
  {
    if |users| == 1 then users[0]
    else
      var m := Min(loads, users[..|users| - 1]);
      if Less(loads, users[|users| - 1], m) then users[|users| - 1] else m
  }

  predicate CanTake(u: User, role: string, required: set<string>) {
    u.active && u.role == role && required <= u.skills
  }

  function Eligible(users: seq<User>, role: string, required: set<string>): seq<User> {
    if users == [] then []
    else
      var u := users[|users| - 1];
      Eligible(users[..|users| - 1], role, required)
      + (if CanTake(u, role, required) then [u] else [])
  }

  function BelowCapacity(loads: Loads, users: seq<User>): seq<User> {
    if users == [] then []
    else
      var u := users[|users| - 1];
      BelowCapacity(loads, users[..|users| - 1]) + (if LoadOf(loads, u) < Capacity(u) then [u] else [])
  }

  /** The two tiers: among those below capacity if there are any, else among all. */
  function Pick(loads: Loads, users: seq<User>): User
    requires users != []
  {
    var below := BelowCapacity(loads, users);
    Min(loads, if below == [] then users else below)
  }

  /** The user table, in id order, and who stands in for whom now: what active_delegate answers. */
  datatype Roster = Roster(users: seq<User>, delegates: map<nat, User>)

  function StandIn(roster: Roster, u: User): User {
    if u.id in roster.delegates && roster.delegates[u.id].active then roster.delegates[u.id] else u
  }

  /** select_assignee. */
  function SelectAssignee(roster: Roster, role: string, required: set<string>, loads: Loads): Option<User> {
    if role == "" then None
    else
      var candidates := Eligible(roster.users, role, required);
      if candidates == [] then None else Some(StandIn(roster, Pick(loads, candidates)))
  }

  // ---------------------------------------------------------------- an order

  lemma MulKeepsOrder(a: int, b: int, c: nat)
    requires a <= b
    ensures a * c <= b * c
  {
  }

  lemma CancelFactor(a: int, b: int, c: nat)
    requires c > 0
    ensures a * c <= b * c <==> a <= b
  {
    if a <= b {
      MulKeepsOrder(a, b, c);
    } else {
      MulKeepsOrder(b + 1, a, c);
    }
  }

  lemma Rearrange(a: int, b: int, c: int)
    ensures a * b * c == a * c * b
  {
  }

  /** a/p <= b/q and b/q <= c/r give a/p <= c/r. */
  lemma RatioTransitive(a: nat, p: nat, b: nat, q: nat, c: nat, r: nat)
    requires q > 0 && a * q <= b * p && b * r <= c * q
    ensures a * r <= c * p
  {
    MulKeepsOrder(a * q, b * p, r);
    MulKeepsOrder(b * r, c * q, p);
    Rearrange(a, q, r);
    Rearrange(b, p, r);
    Rearrange(c, q, p);
    CancelFactor(a * r, c * p, q);
  }

  /** Equal ratios and a strict one stay strict. */
  lemma RatioStrict(a: nat, p: nat, b: nat, q: nat, c: nat, r: nat)
    requires p > 0 && q > 0 && r > 0 && a * q <= b * p && b * r <= c * q
    requires a * r == c * p
    ensures a * q == b * p && b * r == c * q
  {
    RatioTransitive(b, q, c, r, a, p);
    RatioTransitive(c, r, a, p, b, q);
  }

  lemma LessTransitive(loads: Loads, u: User, v: User, w: User)
    requires Less(loads, u, v) && Less(loads, v, w)
    ensures Less(loads, u, w)
  {
    var a, p := LoadOf(loads, u), Capacity(u);
    var b, q := LoadOf(loads, v), Capacity(v);
    var c, r := LoadOf(loads, w), Capacity(w);
    RatioTransitive(a, p, b, q, c, r);
    if a * r == c * p {
      RatioStrict(a, p, b, q, c, r);
    }
  }

  lemma LessTotal(loads: Loads, u: User, v: User)
    requires u.id != v.id
    ensures Less(loads, u, v) != Less(loads, v, u)
  {
  }

  ghost predicate DistinctIds(users: seq<User>) {
    forall i, j :: 0 <= i < j < |users| ==> users[i].id != users[j].id
  }

  /** The minimum is a member before every other one. */
  lemma {:induction false} MinIsLeast(loads: Loads, users: seq<User>)
    requires users != [] && DistinctIds(users)
    ensures Min(loads, users) in users
    ensures forall v :: v in users && v.id != Min(loads, users).id ==> Less(loads, Min(loads, users), v)
  {
    if |users| > 1 {
      var init, last := users[..|users| - 1], users[|users| - 1];
      MinIsLeast(loads, init);
      var m := Min(loads, init);
      assert users == init + [last];
      LessTotal(loads, last, m);
      forall v | v in init && v.id != m.id ensures Less(loads, last, m) ==> Less(loads, last, v) {
        if Less(loads, last, m) {
          LessTransitive(loads, last, m, v);
        }
      }
    }
  }

  lemma {:induction false} BelowMembers(loads: Loads, users: seq<User>)
    ensures forall u :: u in BelowCapacity(loads, users) <==> u in users && LoadOf(loads, u) < Capacity(u)
    ensures DistinctIds(users) ==> DistinctIds(BelowCapacity(loads, users))
  {
    if users != [] {
      var init, last := users[..|users| - 1], users[|users| - 1];
      BelowMembers(loads, init);
      assert users == init + [last];
      if DistinctIds(users) {
        forall u | u in init ensures u.id != last.id {
        }
      }
    }
  }

  /** Whoever comes before someone below capacity is below capacity. */
  lemma BelowIsDownward(loads: Loads, u: User, v: User)
    requires Less(loads, u, v) && LoadOf(loads, v) < Capacity(v)
    ensures LoadOf(loads, u) < Capacity(u)
  {
    var a, p, b, q := LoadOf(loads, u), Capacity(u), LoadOf(loads, v), Capacity(v);
    CancelFactor(q, b, p);
    CancelFactor(p, a, q);
  }

  /** The two-tier choice is the single global minimum. */
  lemma TwoTiersAreOne(loads: Loads, users: seq<User>)
    requires users != [] && DistinctIds(users)
    ensures Pick(loads, users) == Min(loads, users)
  {
    var below := BelowCapacity(loads, users);
    BelowMembers(loads, users);
    MinIsLeast(loads, users);
    if below != [] {
      MinIsLeast(loads, below);
      var m, n := Min(loads, users), Min(loads, below);
      if m.id != n.id {
        BelowIsDownward(loads, m, n);
        LessTotal(loads, m, n);
        assert false;
      }
      SameIdSameUser(users, m, n);
    }
  }

  lemma SameIdSameUser(users: seq<User>, u: User, v: User)
    requires DistinctIds(users) && u in users && v in users && u.id == v.id
    ensures u == v
  {
  }

  // ---------------------------------------------------------------- capacity

  function TotalLoad(loads: Loads, users: seq<User>): nat {
    if users == [] then 0 else TotalLoad(loads, users[..|users| - 1]) + LoadOf(loads, users[|users| - 1])
  }

  function TotalCapacity(users: seq<User>): nat {
    if users == [] then 0 else TotalCapacity(users[..|users| - 1]) + Capacity(users[|users| - 1])
  }

  lemma {:induction false} SomebodyHasRoom(loads: Loads, users: seq<User>) returns (u: User)
    requires TotalLoad(loads, users) < TotalCapacity(users)
    ensures u in users && LoadOf(loads, u) < Capacity(u)
  {
    var init, last := users[..|users| - 1], users[|users| - 1];
    if LoadOf(loads, last) < Capacity(last) {
      u := last;
    } else {
      u := SomebodyHasRoom(loads, init);
    }
  }

  /** While the team has room the pick has room. */
  lemma PickHasRoom(loads: Loads, users: seq<User>)
    requires users != [] && DistinctIds(users) && TotalLoad(loads, users) < TotalCapacity(users)
    ensures var u := Pick(loads, users); LoadOf(loads, u) < Capacity(u)
  {
    var v := SomebodyHasRoom(loads, users);
    TwoTiersAreOne(loads, users);
    MinIsLeast(loads, users);
    var u := Pick(loads, users);
    if u.id == v.id {
      SameIdSameUser(users, u, v);
    } else {
      BelowIsDownward(loads, u, v);
    }
  }

  lemma {:induction false} EligibleMembers(users: seq<User>, role: string, required: set<string>)
    ensures forall u :: u in Eligible(users, role, required) <==> u in users && CanTake(u, role, required)
    ensures DistinctIds(users) ==> DistinctIds(Eligible(users, role, required))
  {
    if users != [] {
      var init, last := users[..|users| - 1], users[|users| - 1];
      EligibleMembers(init, role, required);
      assert users == init + [last];
      if DistinctIds(users) {
        forall u | u in init ensures u.id != last.id {
        }
      }
    }
  }

  /** u comes before v: by cases per capacity, then by cases, then by id. */
  ghost predicate ComesBefore(loads: Loads, u: User, v: User) {
    var a, b := if u.id in loads then loads[u.id] else 0, if v.id in loads then loads[v.id] else 0;
    var p, q := Capacity(u), Capacity(v);
    || a * q < b * p
    || (a * q == b * p && a < b)
    || (a * q == b * p && a == b && u.id < v.id)
  }

  /** Active, of this role, and with these skills. */
  ghost predicate Suits(u: User, role: string, required: set<string>) {
    u.active && u.role == role && forall s :: s in required ==> s in u.skills
  }

  /** u is the one to choose: no other user who suits the work comes before. */
  ghost predicate ComesFirst(users: seq<User>, role: string, required: set<string>, loads: Loads, u: User) {
    && u in users && Suits(u, role, required)
    && forall v :: v in users && Suits(v, role, required) && v.id != u.id ==> ComesBefore(loads, u, v)
  }

  lemma SuitsIsCanTake(u: User, role: string, required: set<string>)
    ensures Suits(u, role, required) <==> CanTake(u, role, required)
  {
  }

  /** There is an assignee exactly when a role is asked for and somebody can take the work; it
      is the stand-in of whoever comes first. */
  lemma SelectsTheLeast(roster: Roster, role: string, required: set<string>, loads: Loads) returns (u: Option<User>)
    requires DistinctIds(roster.users)
    ensures SelectAssignee(roster, role, required, loads)
         == if u == None then None
            else if u.value.id in roster.delegates && roster.delegates[u.value.id].active then
              Some(roster.delegates[u.value.id])
            else u
    ensures u == None <==> role == "" || forall v :: v in roster.users ==> !Suits(v, role, required)
    ensures u.Some? ==> ComesFirst(roster.users, role, required, loads, u.value)
    ensures u.Some? && TotalLoad(loads, Eligible(roster.users, role, required))
                     < TotalCapacity(Eligible(roster.users, role, required)) ==>
      LoadOf(loads, u.value) < Capacity(u.value)
  {
    var candidates := Eligible(roster.users, role, required);
    EligibleMembers(roster.users, role, required);
    forall v ensures Suits(v, role, required) <==> CanTake(v, role, required) {
      SuitsIsCanTake(v, role, required);
    }
    u := None;
    if role != "" && candidates != [] {
      assert candidates[0] in candidates;
      TwoTiersAreOne(loads, candidates);
      MinIsLeast(loads, candidates);
      u := Some(Pick(loads, candidates));
      if TotalLoad(loads, candidates) < TotalCapacity(candidates) {
        PickHasRoom(loads, candidates);
      }
    }
  }

  // ---------------------------------------------------------------- assignment-only runs

  function Assign(loads: Loads, users: seq<User>): Loads
    requires users != []
  {
    var u := Pick(loads, users);
    loads[u.id := LoadOf(loads, u) + 1]
  }

  /** The loads after n assignments to an idle team. */
  function After(users: seq<User>, n: nat): Loads
    requires users != []
  {
    if n == 0 then map[] else Assign(After(users, n - 1), users)
  }

  /** (load_u - 1) / capacity_u <= load_v / capacity_v. */
  predicate FairTo(loads: Loads, u: User, v: User) {
    (LoadOf(loads, u) - 1) * Capacity(v) <= LoadOf(loads, v) * Capacity(u)
  }

  lemma AssignIsFair(loads: Loads, users: seq<User>, u: User, v: User)
    requires users != [] && DistinctIds(users) && u in users && v in users
    requires FairTo(loads, u, v)
    ensures FairTo(Assign(loads, users), u, v)
  {
    TwoTiersAreOne(loads, users);
    MinIsLeast(loads, users);
    var pick, next := Pick(loads, users), Assign(loads, users);
    MulKeepsOrder(LoadOf(loads, v), LoadOf(next, v), Capacity(u));
    if u.id == pick.id {
      SameIdSameUser(users, u, pick);
      if v.id == u.id {
        SameIdSameUser(users, u, v);
        MulKeepsOrder(LoadOf(next, u) - 1, LoadOf(next, u), Capacity(u));
      } else {
        assert LoadOf(next, u) - 1 == LoadOf(loads, u) && LoadOf(next, v) == LoadOf(loads, v);
      }
    } else {
      assert LoadOf(next, u) == LoadOf(loads, u);
    }
  }

  /** In a run of assignments to an idle team no one is ever more than one case ahead of
      anyone else's share. */
  lemma {:induction false} RunsAreFair(users: seq<User>, n: nat, u: User, v: User)
    requires users != [] && DistinctIds(users) && u in users && v in users
    ensures FairTo(After(users, n), u, v)
  {
    if n == 0 {
      assert LoadOf(After(users, 0), u) == 0;
      MulKeepsOrder(-1, 0, Capacity(v));
    } else {
      RunsAreFair(users, n - 1, u, v);
      AssignIsFair(After(users, n - 1), users, u, v);
    }
  }

  /** In plain numbers, for users whose capacity is set. */
  lemma SharesAreFair(users: seq<User>, n: nat, u: User, v: User)
    requires users != [] && DistinctIds(users) && u in users && v in users && u.capacity > 0 && v.capacity > 0
    ensures var a, b := LoadOf(After(users, n), u), LoadOf(After(users, n), v);
      (a - 1) * v.capacity <= b * u.capacity
  {
    RunsAreFair(users, n, u, v);
  }

  lemma {:induction false} TotalUnchanged(loads: Loads, id: nat, x: nat, users: seq<User>)
    requires forall u :: u in users ==> u.id != id
    ensures TotalLoad(loads[id := x], users) == TotalLoad(loads, users)
  {
    if users != [] {
      TotalUnchanged(loads, id, x, users[..|users| - 1]);
    }
  }

  lemma {:induction false} TotalGrowsByOne(loads: Loads, u: User, users: seq<User>)
    requires u in users && DistinctIds(users)
    ensures TotalLoad(loads[u.id := LoadOf(loads, u) + 1], users) == TotalLoad(loads, users) + 1
  {
    var init, last := users[..|users| - 1], users[|users| - 1];
    assert users == init + [last];
    if u == last {
      forall v | v in init ensures v.id != u.id {
      }
      TotalUnchanged(loads, u.id, LoadOf(loads, u) + 1, init);
    } else {
      assert u in init && u.id != last.id;
      TotalGrowsByOne(loads, u, init);
    }
  }

  lemma {:induction false} IdleTeam(users: seq<User>)
    ensures TotalLoad(map[], users) == 0
  {
    if users != [] {
      IdleTeam(users[..|users| - 1]);
    }
  }

  /** As long as there are no more cases than the team's capacity, nobody gets more than fits. */
  lemma {:induction false} NobodyIsOverloaded(users: seq<User>, n: nat, u: User)
    requires users != [] && DistinctIds(users) && u in users && n <= TotalCapacity(users)
    ensures TotalLoad(After(users, n), users) == n
    ensures LoadOf(After(users, n), u) <= Capacity(u)
  {
    if n == 0 {
      IdleTeam(users);
    } else {
      NobodyIsOverloaded(users, n - 1, u);
      OneMoreFits(After(users, n - 1), users, u);
    }
  }

  /** In plain numbers: at most the capacity that is set, and ten where none is. */
  lemma LoadsStayWithin(users: seq<User>, n: nat, u: User)
    requires users != [] && DistinctIds(users) && u in users && n <= TotalCapacity(users)
    ensures u.capacity > 0 ==> LoadOf(After(users, n), u) <= u.capacity
    ensures u.capacity == 0 ==> LoadOf(After(users, n), u) <= 10
  {
    NobodyIsOverloaded(users, n, u);
  }

  /** One more case, as long as the team has room. */
  lemma OneMoreFits(loads: Loads, users: seq<User>, u: User)
    requires users != [] && DistinctIds(users) && u in users
    requires TotalLoad(loads, users) < TotalCapacity(users) && LoadOf(loads, u) <= Capacity(u)
    ensures var r := Assign(loads, users);
      TotalLoad(r, users) == TotalLoad(loads, users) + 1 && LoadOf(r, u) <= Capacity(u)
  {
    var picked := Pick(loads, users);
    PickHasRoom(loads, users);
    TwoTiersAreOne(loads, users);
    MinIsLeast(loads, users);
    TotalGrowsByOne(loads, picked, users);
    if u.id == picked.id {
      SameIdSameUser(users, u, picked);
    }
  }
}
