/** Turn allocation: how many turns a reply gives each persona. The total
    comes from a step table on the number of personas and the intent; it is
    split by per-role floors (two turns for the lead, one for every other
    persona with a positive weight), then by intent weights with
    largest-remainder rounding. */
module Allocation {
  import opened Vocabulary
  import opened Seqs

  // ---------------------------------------------------------------------
  // Tables.

  /** The weight of each role under each intent. */
  function Weight(intent: Intent, r: Role): nat {
    match intent
    case Backend =>
      (match r case CTO => 5 case DEV => 5 case PM => 2 case PO => 2
               case CEO => 1 case MARKETING => 0 case RESEARCH => 1)
    case Design =>
      (match r case CTO => 2 case DEV => 2 case PM => 4 case PO => 4
               case CEO => 1 case MARKETING => 3 case RESEARCH => 3)
    case Marketing =>
      (match r case CTO => 1 case DEV => 1 case PM => 2 case PO => 2
               case CEO => 4 case MARKETING => 5 case RESEARCH => 2)
    case Roadmap =>
      (match r case CTO => 3 case DEV => 2 case PM => 5 case PO => 5
               case CEO => 4 case MARKETING => 2 case RESEARCH => 2)
    case Research =>
      (match r case CTO => 3 case DEV => 3 case PM => 2 case PO => 2
               case CEO => 1 case MARKETING => 1 case RESEARCH => 5)
    case Mixed => 2
  }

  /** The number of turns in a reply with these personas. */
  function TotalTurns(roles: seq<Role>, intent: Intent): nat {
    var n := |roles|;
    if n <= 1 then 0
    else if intent == Backend then (if n == 2 then 8 else if n <= 4 then 10 else 12)
    else if intent == Marketing then (if n <= 3 then 10 else 12)
    else if n == 2 then 8
    else if n == 3 then 10
    else if n <= 5 then 12
    else 14
  }

  /** A single persona gets no turn budget; a conversation gets 8, 10, 12 or
      14 turns. */
  lemma TotalTurnsRange(roles: seq<Role>, intent: Intent)
    ensures |roles| <= 1 <==> TotalTurns(roles, intent) == 0
    ensures |roles| >= 2 ==> TotalTurns(roles, intent) in {8, 10, 12, 14}
  {
  }

  /** Adding personas never shrinks the budget. */
  lemma TotalTurnsMonotone(a: seq<Role>, b: seq<Role>, intent: Intent)
    requires |a| <= |b|
    ensures TotalTurns(a, intent) <= TotalTurns(b, intent)
  {
  }

  /** The step tables: backend gives 8, 10, 10, then 12; marketing gives 10 up
      to three personas (two included), then 12; the other intents give 8, 10,
      12, 12, then 14. */
  lemma TotalTurnsSteps(roles: seq<Role>, intent: Intent)
    requires |roles| >= 2
    ensures intent == Backend ==>
              TotalTurns(roles, intent) == (if |roles| == 2 then 8 else if |roles| <= 4 then 10 else 12)
    ensures intent == Marketing ==>
              TotalTurns(roles, intent) == (if |roles| <= 3 then 10 else 12)
    ensures intent != Backend && intent != Marketing ==>
              TotalTurns(roles, intent) ==
              (if |roles| == 2 then 8 else if |roles| == 3 then 10 else if |roles| <= 5 then 12 else 14)
  {
  }

  // ---------------------------------------------------------------------
  // The allocation, as a specification.

  /** The guaranteed turns of a role: two for the lead, one for any other
      role with a positive weight, none otherwise. */
  function Floor(intent: Intent, lead: Role, r: Role): nat {
    if r == lead then 2 else if Weight(intent, r) > 0 then 1 else 0
  }

  /** The weight a role's share is computed from: the lead gets one extra. */
  function EffWeight(intent: Intent, lead: Role, r: Role): nat {
    Weight(intent, r) + (if r == lead then 1 else 0)
  }

  function FloorFn(intent: Intent, lead: Role): Role -> nat {
    r => Floor(intent, lead, r)
  }

  function EffWeightFn(intent: Intent, lead: Role): Role -> nat {
    r => EffWeight(intent, lead, r)
  }

  /** The turns the floors use up. */
  function MinSum(roles: seq<Role>, intent: Intent): nat
    requires |roles| >= 1
  {
    Sum(roles, FloorFn(intent, roles[0]))
  }

  /** The sum of the effective weights. */
  function TotalWeight(roles: seq<Role>, intent: Intent): nat
    requires |roles| >= 1
  {
    Sum(roles, EffWeightFn(intent, roles[0]))
  }

  /** The turns left to share out after the floors. */
  function Remaining(roles: seq<Role>, intent: Intent): int
    requires |roles| >= 1
  {
    TotalTurns(roles, intent) - MinSum(roles, intent)
  }

  /** The whole part of a role's proportional share of the remaining turns;
      with no weight at all, the lead takes everything. */
  function Share(roles: seq<Role>, intent: Intent, r: Role): nat
    requires |roles| >= 1
  {
    var rest := Remaining(roles, intent);
    var w := TotalWeight(roles, intent);
    if rest <= 0 then 0
    else if w == 0 then (if r == roles[0] then rest else 0)
    else rest * EffWeight(intent, roles[0], r) / w
  }

  /** The fractional part of a role's share, as a numerator over the total
      weight: the key the leftover turns are handed out by. */
  function Rem(roles: seq<Role>, intent: Intent, r: Role): nat
    requires |roles| >= 1
  {
    var rest := Remaining(roles, intent);
    var w := TotalWeight(roles, intent);
    if rest <= 0 || w == 0 then 0
    else rest * EffWeight(intent, roles[0], r) % w
  }

  /** A role's turns before the leftovers: floor plus whole share. */
  function Base(roles: seq<Role>, intent: Intent, r: Role): nat
    requires |roles| >= 1
  {
    Floor(intent, roles[0], r) + Share(roles, intent, r)
  }

  function ShareFn(roles: seq<Role>, intent: Intent): Role -> nat
    requires |roles| >= 1
  {
    r => Share(roles, intent, r)
  }

  function RemFn(roles: seq<Role>, intent: Intent): Role -> nat
    requires |roles| >= 1
  {
    r => Rem(roles, intent, r)
  }

  /** The value of a role in a turn-count map, zero when absent. */
  function At(m: map<Role, nat>, r: Role): nat {
    if r in m then m[r] else 0
  }

  function Lookup(m: map<Role, nat>): Role -> nat {
    r => At(m, r)
  }

  /** Every role is one of the seven. */
  lemma RoleInAll(r: Role)
    ensures r in AllRoles
  {
    match r
    case CTO => case DEV => case PO => case PM => case CEO => case MARKETING => case RESEARCH =>
  }

  // ---------------------------------------------------------------------
  // Facts about the specification.

  /** Distinct personas are at most seven, so the floors always leave turns to
      share: the floors use at most one turn per persona plus one, and every
      budget for two to seven personas exceeds that. */
  lemma RemainingPositive(roles: seq<Role>, intent: Intent)
    requires Distinct(roles) && |roles| >= 2
    ensures |roles| <= 7
    ensures MinSum(roles, intent) <= |roles| + 1
    ensures Remaining(roles, intent) >= 1
  {
    forall k | 0 <= k < |roles| ensures roles[k] in AllRoles {
      RoleInAll(roles[k]);
    }
    DistinctBound(roles, AllRoles);
    FloorsBound(roles, intent, roles[0]);
  }

  /** Over distinct roles the floors sum to at most one per role, plus one
      more when the lead is among them. */
  lemma {:induction false} FloorsBound(rs: seq<Role>, intent: Intent, lead: Role)
    requires Distinct(rs)
    ensures Sum(rs, FloorFn(intent, lead)) <= |rs| + (if lead in rs then 1 else 0)
  {
    if rs != [] {
      var n := |rs| - 1;
      assert rs == rs[..n] + [rs[n]];
      FloorsBound(rs[..n], intent, lead);
      if rs[n] == lead {
        assert lead !in rs[..n];
      }
    }
  }

  /** The lead's effective weight is at least one, so the weights never sum
      to zero. */
  lemma TotalWeightPositive(roles: seq<Role>, intent: Intent)
    requires |roles| >= 1
    ensures TotalWeight(roles, intent) >= 1
  {
    SumAtLeastTerm(roles, EffWeightFn(intent, roles[0]), 0);
  }

  /** A role of no effective weight gets no share and no remainder. */
  lemma ZeroWeightNoShare(roles: seq<Role>, intent: Intent, r: Role)
    requires |roles| >= 1 && EffWeight(intent, roles[0], r) == 0
    ensures Share(roles, intent, r) == 0 && Rem(roles, intent, r) == 0
  {
    var rest := Remaining(roles, intent);
    var w := TotalWeight(roles, intent);
    if rest > 0 && w > 0 {
      assert rest * EffWeight(intent, roles[0], r) == 0;
    }
  }

  /** A role's effective weight times the remaining turns splits into its
      whole share times the total weight plus its remainder. */
  lemma ShareSplits(roles: seq<Role>, intent: Intent, r: Role)
    requires |roles| >= 1 && Remaining(roles, intent) >= 1
    ensures Remaining(roles, intent) * EffWeight(intent, roles[0], r) ==
            TotalWeight(roles, intent) * Share(roles, intent, r) + Rem(roles, intent, r)
    ensures Rem(roles, intent, r) < TotalWeight(roles, intent)
  {
    TotalWeightPositive(roles, intent);
    var w := TotalWeight(roles, intent);
    var x := Remaining(roles, intent) * EffWeight(intent, roles[0], r);
    assert Share(roles, intent, r) == x / w;
    assert Rem(roles, intent, r) == x % w;
    DivMod(x, w);
  }

  lemma DivMod(x: int, w: int)
    requires w >= 1
    ensures x == w * (x / w) + x % w && 0 <= x % w < w
  {
  }

  lemma AddStep(rest: int, w: int, a: int, b: int, c: int, e: int, sh: int, m: int)
    requires rest * a == w * b + c && rest * e == w * sh + m
    ensures rest * (a + e) == w * (b + sh) + (c + m)
  {
  }

  /** Whole shares and remainders add up: the remaining turns times the
      weights is the total weight times the whole shares plus the remainders. */
  lemma {:induction false} SharesAddUp(roles: seq<Role>, intent: Intent, rs: seq<Role>)
    requires |roles| >= 1 && Remaining(roles, intent) >= 1
    ensures Remaining(roles, intent) * Sum(rs, EffWeightFn(intent, roles[0])) ==
            TotalWeight(roles, intent) * Sum(rs, ShareFn(roles, intent)) + Sum(rs, RemFn(roles, intent))
  {
    if rs != [] {
      var n := |rs| - 1;
      var r := rs[n];
      SharesAddUp(roles, intent, rs[..n]);
      ShareSplits(roles, intent, r);
      AddStep(Remaining(roles, intent), TotalWeight(roles, intent),
              Sum(rs[..n], EffWeightFn(intent, roles[0])), Sum(rs[..n], ShareFn(roles, intent)),
              Sum(rs[..n], RemFn(roles, intent)),
              EffWeight(intent, roles[0], r), Share(roles, intent, r), Rem(roles, intent, r));
    }
  }

  lemma LeftoverArith(rest: int, w: int, shares: int, rems: int, n: int)
    requires w >= 1 && n >= 1
    requires rest * w == w * shares + rems
    requires 0 <= rems <= n * (w - 1)
    ensures shares <= rest
    ensures (rest - shares) * w == rems
    ensures rest - shares < n
  {
    assert (rest - shares) * w == rems;
  }

  /** The number of leftover turns times the total weight is the sum of the
      remainders, so there are fewer leftovers than roles. */
  lemma LeftoversBound(roles: seq<Role>, intent: Intent)
    requires |roles| >= 1 && Remaining(roles, intent) >= 1
    ensures Sum(roles, ShareFn(roles, intent)) <= Remaining(roles, intent)
    ensures (Remaining(roles, intent) - Sum(roles, ShareFn(roles, intent))) * TotalWeight(roles, intent) ==
            Sum(roles, RemFn(roles, intent))
    ensures Remaining(roles, intent) - Sum(roles, ShareFn(roles, intent)) < |roles|
  {
    var w := TotalWeight(roles, intent);
    TotalWeightPositive(roles, intent);
    SharesAddUp(roles, intent, roles);
    forall k | 0 <= k < |roles| ensures RemFn(roles, intent)(roles[k]) <= w - 1 {
      ShareSplits(roles, intent, roles[k]);
    }
    SumAtMost(roles, RemFn(roles, intent), w - 1);
    LeftoverArith(Remaining(roles, intent), w, Sum(roles, ShareFn(roles, intent)),
                  Sum(roles, RemFn(roles, intent)), |roles|);
  }

  // ---------------------------------------------------------------------
  // Sums over turn-count maps.

  /** Adding `d` turns to one role of a distinct list adds `d` to the list's
      total when the role is listed, and nothing otherwise. */
  lemma {:induction false} SumBump(rs: seq<Role>, m: map<Role, nat>, r: Role, d: nat)
    requires Distinct(rs) && r in m
    ensures Sum(rs, Lookup(m[r := m[r] + d])) == Sum(rs, Lookup(m)) + (if r in rs then d else 0)
  {
    if rs != [] {
      var n := |rs| - 1;
      assert rs == rs[..n] + [rs[n]];
      SumBump(rs[..n], m, r, d);
      if rs[n] == r {
        assert r !in rs[..n];
      }
    }
  }

  /** `m` with `f(r)` more turns for each role `r` of `rs`, once per
      occurrence. */
  function AddShares(m: map<Role, nat>, rs: seq<Role>, f: Role -> nat): (p: map<Role, nat>)
    ensures forall r :: r in m ==> r in p
    decreases |rs|
  {
    if rs == [] then m
    else
      var q := AddShares(m, rs[..|rs| - 1], f);
      var r := rs[|rs| - 1];
      q[r := At(q, r) + f(r)]
  }

  /** Over distinct roles, each listed role gains its share once and every
      other role keeps its turns. */
  lemma {:induction false} AddSharesAt(m: map<Role, nat>, rs: seq<Role>, f: Role -> nat, r: Role)
    requires Distinct(rs)
    ensures At(AddShares(m, rs, f), r) == At(m, r) + (if r in rs then f(r) else 0)
  {
    if rs != [] {
      var n := |rs| - 1;
      assert rs == rs[..n] + [rs[n]];
      AddSharesAt(m, rs[..n], f, r);
      if rs[n] == r {
        assert r !in rs[..n];
      }
    }
  }

  /** Over distinct roles, the shares add to the listed roles' total. */
  lemma AddSharesSum(m: map<Role, nat>, rs: seq<Role>, f: Role -> nat)
    requires Distinct(rs)
    ensures Sum(rs, Lookup(AddShares(m, rs, f))) == Sum(rs, Lookup(m)) + Sum(rs, f)
  {
    forall k | 0 <= k < |rs|
      ensures Lookup(AddShares(m, rs, f))(rs[k]) == Lookup(m)(rs[k]) + f(rs[k])
    {
      AddSharesAt(m, rs, f, rs[k]);
    }
    SumSplit(rs, Lookup(AddShares(m, rs, f)), Lookup(m), f);
  }

  // ---------------------------------------------------------------------
  // Ordering the leftovers.

  /** The fractional part of one role's share, with the role's position in
      the list. */
  datatype Fraction = Fraction(role: Role, rem: nat, pos: nat)

  /** `a` may precede `b`: a larger remainder first, equal remainders in list
      order (the order a stable sort by descending remainder keeps). */
  predicate KeyLe(a: Fraction, b: Fraction) {
    a.rem > b.rem || (a.rem == b.rem && a.pos <= b.pos)
  }

  predicate SortedByKey(s: seq<Fraction>) {
    forall i, j :: 0 <= i < j < |s| ==> KeyLe(s[i], s[j])
  }

  /** Inserts `x` after every element that may precede it. */
  function InsertFraction(s: seq<Fraction>, x: Fraction): (r: seq<Fraction>)
    requires SortedByKey(s)
    ensures multiset(r) == multiset(s) + multiset{x}
    ensures SortedByKey(r)
  {
    if s == [] || !KeyLe(s[0], x) then
      InsertFront(s, x);
      [x] + s
    else
      var rest := InsertFraction(s[1..], x);
      InsertBehind(s, x, rest);
      [s[0]] + rest
  }

  lemma InsertFront(s: seq<Fraction>, x: Fraction)
    requires SortedByKey(s) && (s == [] || !KeyLe(s[0], x))
    ensures SortedByKey([x] + s)
  {
    forall j | 0 <= j < |s| ensures KeyLe(x, s[j]) {
      if j > 0 { assert KeyLe(s[0], s[j]); }
    }
  }

  lemma InsertBehind(s: seq<Fraction>, x: Fraction, rest: seq<Fraction>)
    requires SortedByKey(s) && s != [] && KeyLe(s[0], x)
    requires SortedByKey(rest) && multiset(rest) == multiset(s[1..]) + multiset{x}
    ensures SortedByKey([s[0]] + rest)
    ensures multiset([s[0]] + rest) == multiset(s) + multiset{x}
  {
    assert s == [s[0]] + s[1..];
    forall j | 0 <= j < |rest| ensures KeyLe(s[0], rest[j]) {
      assert rest[j] in multiset(rest);
      if rest[j] != x {
        assert rest[j] in s[1..];
      }
    }
  }

  /** The sort of the fractions by descending remainder, stable. */
  method SortFractions(fs: seq<Fraction>) returns (sorted: seq<Fraction>)
    ensures multiset(sorted) == multiset(fs)
    ensures SortedByKey(sorted)
  {
    sorted := [];
    for k := 0 to |fs|
      invariant multiset(sorted) == multiset(fs[..k])
      invariant SortedByKey(sorted)
    {
      assert fs[..k + 1] == fs[..k] + [fs[k]];
      sorted := InsertFraction(sorted, fs[k]);
    }
    assert fs[..|fs|] == fs;
  }

  /** The fractions of the listed roles, in list order. */
  predicate FractionsOf(roles: seq<Role>, intent: Intent, fs: seq<Fraction>)
    requires |roles| >= 1
  {
    |fs| == |roles| &&
    forall t :: 0 <= t < |fs| ==> fs[t] == Fraction(roles[t], Rem(roles, intent, roles[t]), t)
  }

  /** Role `r` owns one of the first `n` fractions of `s`. */
  predicate Picked(s: seq<Fraction>, n: nat, r: Role) {
    exists t :: 0 <= t < n && t < |s| && s[t].role == r
  }

  function RemOf(): Fraction -> nat {
    (f: Fraction) => f.rem
  }

  /** `m` after `n` leftover turns, the i-th going to the role of fraction
      `i` modulo the number of fractions. */
  function HandOut(m: map<Role, nat>, sorted: seq<Fraction>, n: nat): (p: map<Role, nat>)
    ensures forall r :: r in m ==> r in p
  {
    if n == 0 || |sorted| == 0 then m
    else
      var q := HandOut(m, sorted, n - 1);
      var r := sorted[(n - 1) % |sorted|].role;
      q[r := At(q, r) + 1]
  }

  /** No more leftovers than fractions of distinct roles: the first `n`
      fractions each give their role one turn. */
  lemma {:induction false} HandOutAt(m: map<Role, nat>, sorted: seq<Fraction>, n: nat, r: Role)
    requires n <= |sorted|
    requires forall t, u :: 0 <= t < u < |sorted| ==> sorted[t].role != sorted[u].role
    ensures At(HandOut(m, sorted, n), r) == At(m, r) + (if Picked(sorted, n, r) then 1 else 0)
  {
    if n > 0 {
      HandOutAt(m, sorted, n - 1, r);
      ModSmall(n - 1, |sorted|);
      if sorted[n - 1].role == r {
        assert !Picked(sorted, n - 1, r);
      } else {
        assert Picked(sorted, n, r) <==> Picked(sorted, n - 1, r);
      }
    }
  }

  lemma ModSmall(a: nat, b: nat)
    requires a < b
    ensures a % b == a
  {
  }

  /** Every leftover turn goes to a listed role, so the listed roles' total
      grows by the number of leftovers. */
  lemma {:induction false} HandOutSum(m: map<Role, nat>, roles: seq<Role>, sorted: seq<Fraction>, n: nat)
    requires Distinct(roles) && 0 < |sorted|
    requires forall r :: r in m
    requires forall t :: 0 <= t < |sorted| ==> sorted[t].role in roles
    ensures Sum(roles, Lookup(HandOut(m, sorted, n))) == Sum(roles, Lookup(m)) + n
  {
    if n > 0 {
      HandOutSum(m, roles, sorted, n - 1);
      var q := HandOut(m, sorted, n - 1);
      SumBump(roles, q, sorted[(n - 1) % |sorted|].role, 1);
    }
  }

  /** The sorted fractions are the fractions of distinct roles, one each. */
  lemma SortedFacts(roles: seq<Role>, intent: Intent, fs: seq<Fraction>, sorted: seq<Fraction>)
    requires Distinct(roles) && |roles| >= 1
    requires FractionsOf(roles, intent, fs) && multiset(sorted) == multiset(fs)
    ensures |sorted| == |roles|
    ensures forall t :: 0 <= t < |sorted| ==> sorted[t].pos < |roles| && sorted[t] == fs[sorted[t].pos]
    ensures forall t, u :: 0 <= t < u < |sorted| ==> sorted[t].role != sorted[u].role
    ensures forall i :: 0 <= i < |roles| ==> fs[i] in sorted
  {
    assert |sorted| == |multiset(sorted)| == |multiset(fs)| == |fs|;
    forall t | 0 <= t < |sorted| ensures sorted[t].pos < |roles| && sorted[t] == fs[sorted[t].pos] {
      assert sorted[t] in multiset(fs);
    }
    assert Distinct(fs) by {
      forall i, j | 0 <= i < j < |fs| ensures fs[i] != fs[j] {
        assert fs[i].pos != fs[j].pos;
      }
    }
    PermutationDistinct(sorted, fs);
    forall i | 0 <= i < |roles| ensures fs[i] in sorted {
      assert fs[i] in multiset(sorted);
    }
  }

  /** The remainders of the fractions are the remainders of the roles. */
  lemma {:induction false} FractionRems(roles: seq<Role>, intent: Intent, fs: seq<Fraction>, k: nat)
    requires |roles| >= 1 && FractionsOf(roles, intent, fs) && k <= |fs|
    ensures Sum(fs[..k], RemOf()) == Sum(roles[..k], RemFn(roles, intent))
  {
    if k > 0 {
      FractionRems(roles, intent, fs, k - 1);
      assert fs[..k][..k - 1] == fs[..k - 1];
      assert roles[..k][..k - 1] == roles[..k - 1];
    }
  }

  lemma RoomArith(extra: int, t: int, w: int)
    requires w >= 1 && 0 <= t < extra
    ensures extra * w > t * (w - 1)
  {
    assert t * (w - 1) <= t * w;
    assert t * w < extra * w;
  }

  /** The remainders of the sorted fractions sum to the number of leftover
      turns times the total weight, and each is below the total weight. */
  lemma SortedRems(roles: seq<Role>, intent: Intent, fs: seq<Fraction>,
                   sorted: seq<Fraction>, extra: nat)
    requires Distinct(roles) && |roles| >= 1 && Remaining(roles, intent) >= 1
    requires FractionsOf(roles, intent, fs) && multiset(sorted) == multiset(fs)
    requires extra == Remaining(roles, intent) - Sum(roles, ShareFn(roles, intent))
    ensures extra < |sorted|
    ensures TotalWeight(roles, intent) >= 1
    ensures Sum(sorted, RemOf()) == extra * TotalWeight(roles, intent)
    ensures forall u :: 0 <= u < |sorted| ==> sorted[u].rem < TotalWeight(roles, intent)
  {
    SortedFacts(roles, intent, fs, sorted);
    LeftoversBound(roles, intent);
    TotalWeightPositive(roles, intent);
    forall u | 0 <= u < |sorted| ensures sorted[u].rem < TotalWeight(roles, intent) {
      ShareSplits(roles, intent, sorted[u].role);
    }
    SortedRemsTotal(roles, intent, fs, sorted, extra);
  }

  lemma SortedRemsTotal(roles: seq<Role>, intent: Intent, fs: seq<Fraction>,
                        sorted: seq<Fraction>, extra: nat)
    requires |roles| >= 1 && Remaining(roles, intent) >= 1
    requires FractionsOf(roles, intent, fs) && multiset(sorted) == multiset(fs)
    requires extra == Remaining(roles, intent) - Sum(roles, ShareFn(roles, intent))
    ensures Sum(sorted, RemOf()) == extra * TotalWeight(roles, intent)
  {
    LeftoversBound(roles, intent);
    SortedRemsSum(roles, intent, fs, sorted);
    ScaledTotal(Sum(sorted, RemOf()), extra, Remaining(roles, intent) - Sum(roles, ShareFn(roles, intent)),
                TotalWeight(roles, intent));
  }

  /** Sorting keeps the remainders' total. */
  lemma SortedRemsSum(roles: seq<Role>, intent: Intent, fs: seq<Fraction>, sorted: seq<Fraction>)
    requires |roles| >= 1
    requires FractionsOf(roles, intent, fs) && multiset(sorted) == multiset(fs)
    ensures Sum(sorted, RemOf()) == Sum(roles, RemFn(roles, intent))
  {
    SumPermutation(sorted, fs, RemOf());
    FractionRems(roles, intent, fs, |fs|);
    assert fs[..|fs|] == fs && roles[..|fs|] == roles;
  }

  lemma ScaledTotal(total: int, a: int, b: int, w: int)
    requires a == b && total == b * w
    ensures total == a * w
  {
  }

  /** In a sorted order whose remainders, each below `w`, sum to `extra`
      times `w`, the first `extra` remainders are positive. */
  lemma FirstRemsPositive(sorted: seq<Fraction>, extra: nat, w: nat)
    requires w >= 1 && SortedByKey(sorted)
    requires Sum(sorted, RemOf()) == extra * w
    requires forall u :: 0 <= u < |sorted| ==> sorted[u].rem < w
    ensures forall t :: 0 <= t < extra && t < |sorted| ==> sorted[t].rem > 0
  {
    forall t | 0 <= t < extra && t < |sorted| ensures sorted[t].rem > 0 {
      RemPositiveAt(sorted, extra, w, t);
    }
  }

  /** One position of the statement above: some remainder from `t` on is
      positive, and the one at `t` is the largest of those. */
  lemma RemPositiveAt(sorted: seq<Fraction>, extra: nat, w: nat, t: nat)
    requires w >= 1 && SortedByKey(sorted)
    requires Sum(sorted, RemOf()) == extra * w
    requires forall u :: 0 <= u < |sorted| ==> sorted[u].rem < w
    requires t < extra && t < |sorted|
    ensures sorted[t].rem > 0
  {
    SuffixRemsPositive(sorted, extra, w, t);
    var after := sorted[t..];
    SumPositive(after, RemOf());
    var k :| 0 <= k < |after| && RemOf()(after[k]) > 0;
    assert after[k] == sorted[t + k];
    if k > 0 {
      assert KeyLe(sorted[t], sorted[t + k]);
    }
  }

  /** The remainders before `t` sum to less than `extra * w`, so those from
      `t` on sum to something positive. */
  lemma SuffixRemsPositive(sorted: seq<Fraction>, extra: nat, w: nat, t: nat)
    requires w >= 1
    requires Sum(sorted, RemOf()) == extra * w
    requires forall u :: 0 <= u < |sorted| ==> sorted[u].rem < w
    requires t < extra && t <= |sorted|
    ensures Sum(sorted[t..], RemOf()) > 0
  {
    var before, after := sorted[..t], sorted[t..];
    assert sorted == before + after;
    SumAppend(before, after, RemOf());
    forall u | 0 <= u < |before| ensures RemOf()(before[u]) <= w - 1 {
      assert before[u] == sorted[u];
    }
    SumAtMost(before, RemOf(), w - 1);
    RoomArith(extra, t, w);
  }

  /** The leftover turns go to the first fractions of the sorted order: no
      role with a zero remainder gets one, and a role that gets one comes
      before every role that does not by larger remainder, ties by position. */
  lemma LeftoversFollowOrder(roles: seq<Role>, intent: Intent, fs: seq<Fraction>,
                             sorted: seq<Fraction>, extra: nat)
    requires Distinct(roles) && |roles| >= 1 && Remaining(roles, intent) >= 1
    requires FractionsOf(roles, intent, fs) && multiset(sorted) == multiset(fs) && SortedByKey(sorted)
    requires extra == Remaining(roles, intent) - Sum(roles, ShareFn(roles, intent))
    ensures extra < |sorted|
    ensures forall r :: r in roles && Rem(roles, intent, r) == 0 ==> !Picked(sorted, extra, r)
    ensures forall i, j ::
              0 <= i < |roles| && 0 <= j < |roles| &&
              Picked(sorted, extra, roles[i]) && !Picked(sorted, extra, roles[j]) ==>
              Rem(roles, intent, roles[i]) > Rem(roles, intent, roles[j]) ||
              (Rem(roles, intent, roles[i]) == Rem(roles, intent, roles[j]) && i < j)
  {
    SortedFacts(roles, intent, fs, sorted);
    SortedRems(roles, intent, fs, sorted, extra);
    FirstRemsPositive(sorted, extra, TotalWeight(roles, intent));
    PickedArePositive(roles, intent, fs, sorted, extra);
    PickedComeFirst(roles, intent, fs, sorted, extra);
  }

  /** A role whose fraction is among the first `extra` has a positive
      remainder. */
  lemma PickedArePositive(roles: seq<Role>, intent: Intent, fs: seq<Fraction>,
                          sorted: seq<Fraction>, extra: nat)
    requires |roles| >= 1 && FractionsOf(roles, intent, fs)
    requires forall t :: 0 <= t < |sorted| ==> sorted[t].pos < |roles| && sorted[t] == fs[sorted[t].pos]
    requires forall t :: 0 <= t < extra && t < |sorted| ==> sorted[t].rem > 0
    ensures forall r :: r in roles && Rem(roles, intent, r) == 0 ==> !Picked(sorted, extra, r)
  {
    forall r | r in roles && Picked(sorted, extra, r) ensures Rem(roles, intent, r) > 0 {
      var t :| 0 <= t < extra && t < |sorted| && sorted[t].role == r;
      assert sorted[t] == fs[sorted[t].pos];
    }
  }

  /** Fractions among the first `extra` come before the others by key. */
  lemma PickedComeFirst(roles: seq<Role>, intent: Intent, fs: seq<Fraction>,
                        sorted: seq<Fraction>, extra: nat)
    requires Distinct(roles) && |roles| >= 1 && FractionsOf(roles, intent, fs)
    requires SortedByKey(sorted) && extra <= |sorted|
    requires forall t :: 0 <= t < |sorted| ==> sorted[t].pos < |roles| && sorted[t] == fs[sorted[t].pos]
    requires forall i :: 0 <= i < |roles| ==> fs[i] in sorted
    ensures forall i, j ::
              0 <= i < |roles| && 0 <= j < |roles| &&
              Picked(sorted, extra, roles[i]) && !Picked(sorted, extra, roles[j]) ==>
              Rem(roles, intent, roles[i]) > Rem(roles, intent, roles[j]) ||
              (Rem(roles, intent, roles[i]) == Rem(roles, intent, roles[j]) && i < j)
  {
    forall i, j |
        0 <= i < |roles| && 0 <= j < |roles| &&
        Picked(sorted, extra, roles[i]) && !Picked(sorted, extra, roles[j])
      ensures Rem(roles, intent, roles[i]) > Rem(roles, intent, roles[j]) ||
              (Rem(roles, intent, roles[i]) == Rem(roles, intent, roles[j]) && i < j)
    {
      PickedFirst(fs, sorted, extra, i, j);
    }
  }

  /** In a sorted permutation of fractions of distinct roles, a fraction
      among the first `n` precedes one that is not by key. */
  lemma PickedFirst(fs: seq<Fraction>, sorted: seq<Fraction>, n: nat, i: nat, j: nat)
    requires SortedByKey(sorted) && n <= |sorted|
    requires i < |fs| && j < |fs|
    requires forall k :: 0 <= k < |fs| ==> fs[k].pos == k
    requires forall a, b :: 0 <= a < b < |fs| ==> fs[a].role != fs[b].role
    requires forall t :: 0 <= t < |sorted| ==> sorted[t].pos < |fs| && sorted[t] == fs[sorted[t].pos]
    requires fs[j] in sorted
    requires Picked(sorted, n, fs[i].role) && !Picked(sorted, n, fs[j].role)
    ensures fs[i].rem > fs[j].rem || (fs[i].rem == fs[j].rem && i < j)
  {
    var t :| 0 <= t < n && t < |sorted| && sorted[t].role == fs[i].role;
    var p := sorted[t].pos;
    assert fs[p].role == fs[i].role;
    assert p == i;
    var u :| 0 <= u < |sorted| && sorted[u] == fs[j];
    assert t < u;
    assert KeyLe(sorted[t], sorted[u]);
  }

  // ---------------------------------------------------------------------
  // The allocation as the plugin computes it, step by step.

  /** The floors of the listed roles: 2 for the lead, 1 for a role the
      intent weighs, else 0. */
  method FloorMins(roles: seq<Role>, intent: Intent) returns (mins: map<Role, nat>)
    requires |roles| >= 1
    ensures forall r :: r in mins <==> r in roles
    ensures forall r :: r in mins ==> mins[r] == Floor(intent, roles[0], r)
  {
    var lead := roles[0];
    mins := map[];
    for k := 0 to |roles|
      invariant forall r :: r in mins <==> r in roles[..k]
      invariant forall r :: r in mins ==> mins[r] == Floor(intent, lead, r)
    {
      var role := roles[k];
      var weight := Weight(intent, role);
      if role == lead {
        mins := mins[role := 2];
      } else {
        mins := mins[role := if weight > 0 then 1 else 0];
      }
    }
    assert roles[..|roles|] == roles;
  }

  /** The floors of the listed roles, and their sum with every occurrence
      counted. */
  method FloorTurns(roles: seq<Role>, intent: Intent) returns (mins: map<Role, nat>, minSum: int)
    requires |roles| >= 1
    ensures forall r :: r in mins <==> r in roles
    ensures forall r :: r in mins ==> mins[r] == Floor(intent, roles[0], r)
    ensures minSum == MinSum(roles, intent)
  {
    mins := FloorMins(roles, intent);
    minSum := 0;
    for k := 0 to |roles|
      invariant minSum == Sum(roles[..k], FloorFn(intent, roles[0]))
    {
      assert roles[..k + 1][..k] == roles[..k];
      var role := roles[k];
      minSum := minSum + (if role in mins then mins[role] else 0);
    }
    assert roles[..|roles|] == roles;
  }

  /** The roles the backward repair lowers once it has scanned positions
      `j` onwards: every role listed there other than the lead whose floor
      is still positive. */
  function Dropped(roles: seq<Role>, lead: Role, mins: map<Role, nat>, j: nat): set<Role>
    requires j <= |roles|
  {
    set r | r in roles[j..] && r != lead && r in mins && mins[r] > 0
  }

  /** The floors with each dropped role's single floor turn taken back. */
  function Lowered(mins: map<Role, nat>, dropped: set<Role>): map<Role, nat> {
    map r | r in mins :: if r in dropped then 0 else mins[r]
  }

  /** Scanning one more position adds its role to the dropped ones, unless
      it is the lead or has no floor to give. */
  lemma DroppedStep(roles: seq<Role>, lead: Role, mins: map<Role, nat>, i: nat)
    requires i < |roles|
    ensures Dropped(roles, lead, mins, i) ==
            Dropped(roles, lead, mins, i + 1) +
            (if roles[i] != lead && roles[i] in mins && mins[roles[i]] > 0 then {roles[i]} else {})
  {
    assert roles[i..] == [roles[i]] + roles[i + 1..];
  }

  /** Lowering one more role lowers its floor by one and no other. */
  lemma LoweredStep(mins: map<Role, nat>, dropped: set<Role>, role: Role)
    requires role in mins
    ensures Lowered(mins, dropped + {role}) == Lowered(mins, dropped)[role := 0]
  {
  }

  /** Scanning a position whose role is not the lead and still has its
      floor turn lowers that role. */
  lemma RepairDrop(roles: seq<Role>, lead: Role, mins: map<Role, nat>, i: nat)
    requires i < |roles|
    requires forall r :: r in mins <==> r in roles
    requires forall r :: r in mins && r != lead ==> mins[r] <= 1
    requires roles[i] != lead && Lowered(mins, Dropped(roles, lead, mins, i + 1))[roles[i]] > 0
    ensures Dropped(roles, lead, mins, i) == Dropped(roles, lead, mins, i + 1) + {roles[i]}
    ensures |Dropped(roles, lead, mins, i)| == |Dropped(roles, lead, mins, i + 1)| + 1
    ensures Lowered(mins, Dropped(roles, lead, mins, i + 1))[roles[i]] == mins[roles[i]]
    ensures Lowered(mins, Dropped(roles, lead, mins, i)) ==
            Lowered(mins, Dropped(roles, lead, mins, i + 1))[roles[i] := 0]
  {
    DroppedStep(roles, lead, mins, i);
    var dropped := Dropped(roles, lead, mins, i + 1);
    var role := roles[i];
    assert role !in dropped;
    LoweredStep(mins, dropped, role);
  }

  /** Scanning the lead, or a role whose floor turn is gone, lowers nothing
      more: its floor was 0 or, listed again, it was already lowered. */
  lemma RepairSkip(roles: seq<Role>, lead: Role, mins: map<Role, nat>, i: nat)
    requires i < |roles|
    requires forall r :: r in mins <==> r in roles
    requires forall r :: r in mins && r != lead ==> mins[r] <= 1
    requires roles[i] == lead || Lowered(mins, Dropped(roles, lead, mins, i + 1))[roles[i]] == 0
    ensures Dropped(roles, lead, mins, i) == Dropped(roles, lead, mins, i + 1)
  {
    DroppedStep(roles, lead, mins, i);
  }

  /** With nothing left to scan every non-lead floor is 0. */
  lemma AllLowered(roles: seq<Role>, lead: Role, mins: map<Role, nat>)
    requires forall r :: r in mins <==> r in roles
    ensures forall r :: r in roles && r != lead ==> Lowered(mins, Dropped(roles, lead, mins, 0))[r] == 0
  {
    assert roles[0..] == roles;
  }

  /** Lowering keeps the listed roles and never touches the lead. */
  lemma LoweredKeepsLead(roles: seq<Role>, lead: Role, mins: map<Role, nat>, j: nat)
    requires j <= |roles|
    requires forall r :: r in mins <==> r in roles
    ensures forall r :: r in Lowered(mins, Dropped(roles, lead, mins, j)) <==> r in roles
    ensures lead in mins ==> Lowered(mins, Dropped(roles, lead, mins, j))[lead] == mins[lead]
  {
  }

  /** Before the scan nothing is lowered. */
  lemma NoneLowered(roles: seq<Role>, lead: Role, mins: map<Role, nat>)
    ensures Dropped(roles, lead, mins, |roles|) == {}
    ensures Lowered(mins, {}) == mins
  {
    assert roles[|roles|..] == [];
  }

  /** Takes floor turns back, scanning from the end of the list and never
      from the lead, while the floors exceed the budget. The scan stops
      after position `cut + 1` (or runs off the front of the list): each
      non-lead role listed from there on loses its single floor turn, once
      however often it is listed, and the sum drops by one per role. It
      stops at the first position where the sum fits, and a sum still over
      budget leaves every non-lead floor at 0. */
  method RepairFloors(roles: seq<Role>, mins: map<Role, nat>, minSum: int, total: int)
    returns (repaired: map<Role, nat>, repairedSum: int, cut: int)
    requires |roles| >= 1
    requires forall r :: r in mins <==> r in roles
    requires forall r :: r in mins && r != roles[0] ==> mins[r] <= 1
    ensures -1 <= cut < |roles|
    ensures repaired == Lowered(mins, Dropped(roles, roles[0], mins, cut + 1))
    ensures repairedSum == minSum - |Dropped(roles, roles[0], mins, cut + 1)|
    ensures cut >= 0 ==> repairedSum <= total
    ensures forall j :: cut + 1 < j <= |roles| ==> minSum - |Dropped(roles, roles[0], mins, j)| > total
  {
    repaired, repairedSum, cut := mins, minSum, |roles| - 1;
    NoneLowered(roles, roles[0], mins);
    if repairedSum > total {
      repaired, repairedSum, cut := ScanBack(roles, mins, minSum, total);
    }
  }

  /** The backward scan of the repair, entered with the floors over budget. */
  method ScanBack(roles: seq<Role>, mins: map<Role, nat>, minSum: int, total: int)
    returns (repaired: map<Role, nat>, repairedSum: int, cut: int)
    requires |roles| >= 1 && minSum > total
    requires forall r :: r in mins <==> r in roles
    requires forall r :: r in mins && r != roles[0] ==> mins[r] <= 1
    ensures -1 <= cut < |roles|
    ensures repaired == Lowered(mins, Dropped(roles, roles[0], mins, cut + 1))
    ensures repairedSum == minSum - |Dropped(roles, roles[0], mins, cut + 1)|
    ensures cut >= 0 ==> repairedSum <= total
    ensures forall j :: cut + 1 < j <= |roles| ==> minSum - |Dropped(roles, roles[0], mins, j)| > total
  {
    var lead := roles[0];
    NoneLowered(roles, lead, mins);
    repaired, repairedSum := mins, minSum;
    var i := |roles| - 1;
    while i >= 0 && repairedSum > total
      invariant -1 <= i < |roles|
      invariant repaired == Lowered(mins, Dropped(roles, lead, mins, i + 1))
      invariant repairedSum == minSum - |Dropped(roles, lead, mins, i + 1)|
      invariant forall j :: i + 1 < j <= |roles| ==> minSum - |Dropped(roles, lead, mins, j)| > total
      decreases i + 1
    {
      assert minSum - |Dropped(roles, lead, mins, i + 1)| > total;
      repaired, repairedSum := RepairAt(roles, lead, mins, i, repaired, repairedSum);
      i := i - 1;
    }
    cut := i;
  }

  /** What the scan's stopping point says about the repaired floors. */
  lemma RepairOutcome(roles: seq<Role>, mins: map<Role, nat>, minSum: int, total: int,
                      cut: int, repaired: map<Role, nat>, repairedSum: int)
    requires |roles| >= 1
    requires forall r :: r in mins <==> r in roles
    requires -1 <= cut < |roles|
    requires repaired == Lowered(mins, Dropped(roles, roles[0], mins, cut + 1))
    requires repairedSum == minSum - |Dropped(roles, roles[0], mins, cut + 1)|
    requires cut >= 0 ==> repairedSum <= total
    requires forall j :: cut + 1 < j <= |roles| ==> minSum - |Dropped(roles, roles[0], mins, j)| > total
    ensures forall r :: r in repaired <==> r in roles
    ensures repaired[roles[0]] == mins[roles[0]]
    ensures minSum <= total ==> repaired == mins && repairedSum == minSum
    ensures repairedSum > total ==> forall r :: r in roles && r != roles[0] ==> repaired[r] == 0
  {
    NoneLowered(roles, roles[0], mins);
    assert cut + 1 < |roles| ==> minSum - |Dropped(roles, roles[0], mins, |roles|)| > total;
    LoweredKeepsLead(roles, roles[0], mins, cut + 1);
    if repairedSum > total {
      AllLowered(roles, roles[0], mins);
    }
  }

  /** One step of the backward repair: position `i` gives up its role's
      floor turn unless that role is the lead or has none left. */
  method RepairAt(roles: seq<Role>, lead: Role, mins: map<Role, nat>, i: nat,
                  repaired: map<Role, nat>, repairedSum: int)
    returns (next: map<Role, nat>, nextSum: int)
    requires i < |roles|
    requires forall r :: r in mins <==> r in roles
    requires forall r :: r in mins && r != lead ==> mins[r] <= 1
    requires repaired == Lowered(mins, Dropped(roles, lead, mins, i + 1))
    ensures next == Lowered(mins, Dropped(roles, lead, mins, i))
    ensures nextSum == repairedSum - (|Dropped(roles, lead, mins, i)| - |Dropped(roles, lead, mins, i + 1)|)
  {
    next, nextSum := repaired, repairedSum;
    var role := roles[i];
    LoweredKeepsLead(roles, lead, mins, i + 1);
    if role != lead {
      var current := if role in repaired then repaired[role] else 0;
      if current > 0 {
        RepairDrop(roles, lead, mins, i);
        next := repaired[role := current - 1];
        nextSum := repairedSum - 1;
      } else {
        RepairSkip(roles, lead, mins, i);
      }
    } else {
      RepairSkip(roles, lead, mins, i);
    }
  }

  /** Writes each listed role's floor into the targets; other roles keep
      theirs. */
  method SetFloors(roles: seq<Role>, mins: map<Role, nat>, targets: map<Role, nat>)
    returns (out: map<Role, nat>)
    requires forall r :: r in targets
    ensures forall r :: r in out
    ensures forall r :: r !in roles ==> out[r] == targets[r]
    ensures forall r :: r in roles ==> out[r] == (if r in mins then mins[r] else 0)
  {
    out := targets;
    for k := 0 to |roles|
      invariant forall r :: r in out
      invariant forall r :: r !in roles[..k] ==> out[r] == targets[r]
      invariant forall r :: r in roles[..k] ==> out[r] == (if r in mins then mins[r] else 0)
    {
      assert roles[..k + 1] == roles[..k] + [roles[k]];
      var role := roles[k];
      out := out[role := if role in mins then mins[role] else 0];
    }
    assert roles[..|roles|] == roles;
  }

  /** Floors written over zero targets sum to the floor total. */
  lemma FloorsInPlace(roles: seq<Role>, intent: Intent, mins: map<Role, nat>, floors: map<Role, nat>)
    requires |roles| >= 1
    requires forall r :: r in mins <==> r in roles
    requires forall r :: r in mins ==> mins[r] == Floor(intent, roles[0], r)
    requires forall r :: r in floors
    requires forall r :: r in roles ==> floors[r] == (if r in mins then mins[r] else 0)
    ensures forall r :: r in roles ==> floors[r] == Floor(intent, roles[0], r)
    ensures Sum(roles, Lookup(floors)) == MinSum(roles, intent)
  {
    SumPointwise(roles, Lookup(floors), FloorFn(intent, roles[0]));
  }

  /** The effective weights of the listed roles (the lead's raised by one,
      clamped at zero), and their sum with every occurrence counted. */
  method EffectiveWeights(roles: seq<Role>, intent: Intent)
    returns (effectiveWeights: map<Role, nat>, weightSum: int)
    requires |roles| >= 1
    ensures forall r :: r in effectiveWeights <==> r in roles
    ensures forall r :: r in effectiveWeights ==> effectiveWeights[r] == EffWeight(intent, roles[0], r)
    ensures weightSum == TotalWeight(roles, intent)
  {
    var lead := roles[0];
    effectiveWeights := map[];
    weightSum := 0;
    for k := 0 to |roles|
      invariant forall r :: r in effectiveWeights <==> r in roles[..k]
      invariant forall r :: r in effectiveWeights ==> effectiveWeights[r] == EffWeight(intent, lead, r)
      invariant weightSum == Sum(roles[..k], EffWeightFn(intent, lead))
    {
      assert roles[..k + 1][..k] == roles[..k];
      var role := roles[k];
      var raw := Weight(intent, role) as int + (if role == lead then 1 else 0);
      var weight := if raw > 0 then raw else 0;
      effectiveWeights := effectiveWeights[role := weight];
      weightSum := weightSum + weight;
    }
    assert roles[..|roles|] == roles;
  }

  /** The whole turns a role of effective weight `w` gets out of
      `remaining`, in proportion to `weightSum`. */
  function WholeOf(remaining: int, w: nat, weightSum: int): (q: int)
    requires remaining >= 0 && weightSum >= 1
    ensures q >= 0
  {
    remaining * w / weightSum
  }

  /** The fractional part left over, scaled by `weightSum`. */
  function FracOf(remaining: int, w: nat, weightSum: int): (m: int)
    requires weightSum >= 1
    ensures 0 <= m < weightSum
  {
    remaining * w % weightSum
  }

  /** The whole turns of each role, as a function of the role. */
  function WholeFn(effectiveWeights: map<Role, nat>, remaining: nat, weightSum: nat): Role -> nat
    requires weightSum >= 1
  {
    r => if r in effectiveWeights then WholeOf(remaining, effectiveWeights[r], weightSum) as nat else 0
  }

  /** Adds each listed role's whole share to its target and records the
      fractional parts, in list order. */
  method ShareOut(roles: seq<Role>, effectiveWeights: map<Role, nat>, remaining: int, weightSum: int,
                  targets: map<Role, nat>)
    returns (shared: map<Role, nat>, fractions: seq<Fraction>, assignedTurns: int)
    requires remaining >= 1 && weightSum >= 1
    requires forall r :: r in targets
    requires forall r :: r in roles ==> r in effectiveWeights
    ensures shared == AddShares(targets, roles, WholeFn(effectiveWeights, remaining, weightSum))
    ensures |fractions| == |roles|
    ensures forall t :: 0 <= t < |roles| ==>
              fractions[t] == Fraction(roles[t], FracOf(remaining, effectiveWeights[roles[t]], weightSum) as nat, t)
    ensures assignedTurns == Sum(roles, WholeFn(effectiveWeights, remaining, weightSum))
  {
    shared, fractions, assignedTurns := targets, [], 0;
    ghost var whole := WholeFn(effectiveWeights, remaining, weightSum);
    for k := 0 to |roles|
      invariant shared == AddShares(targets, roles[..k], whole)
      invariant |fractions| == k
      invariant forall t :: 0 <= t < k ==>
                  fractions[t] == Fraction(roles[t], FracOf(remaining, effectiveWeights[roles[t]], weightSum) as nat, t)
      invariant assignedTurns == Sum(roles[..k], whole)
    {
      assert roles[..k + 1][..k] == roles[..k];
      var role := roles[k];
      var weight := if role in effectiveWeights then effectiveWeights[role] else 0;
      var share := WholeOf(remaining, weight, weightSum);
      var fraction := FracOf(remaining, weight, weightSum);
      assert share == whole(role);
      shared := shared[role := shared[role] + share];
      assignedTurns := assignedTurns + share;
      fractions := fractions + [Fraction(role, fraction, k)];
    }
    assert roles[..|roles|] == roles;
  }

  /** Hands out `extra` single turns, cycling through the sorted fractions. */
  method HandOutLeftovers(sorted: seq<Fraction>, extra: int, targets: map<Role, nat>)
    returns (out: map<Role, nat>)
    ensures out == HandOut(targets, sorted, if extra > 0 then extra else 0)
  {
    out := targets;
    var remainingExtra := extra;
    var index := 0;
    while remainingExtra > 0 && |sorted| > 0
      invariant 0 <= index && remainingExtra == extra - index
      invariant extra > 0 ==> index <= extra
      invariant extra <= 0 ==> index == 0
      invariant out == HandOut(targets, sorted, index)
      decreases remainingExtra
    {
      var role := sorted[index % |sorted|].role;
      out := out[role := At(out, role) + 1];
      remainingExtra := remainingExtra - 1;
      index := index + 1;
    }
  }

  /** Turn targets that meet the allocation for distinct personas (two or
      more): the listed roles' targets sum to the turn budget, unlisted roles
      get none, the lead gets at least two, every listed role gets its floor
      plus its whole share plus at most one leftover turn, a role without
      remainder gets no leftover, the leftovers go by descending remainder
      with ties in list order, and a non-lead persona with no weight for the
      intent gets nothing. */
  predicate FairTargets(roles: seq<Role>, intent: Intent, targets: map<Role, nat>)
    requires |roles| >= 2
  {
    SpendsBudget(roles, intent, targets) && RoundsShares(roles, intent, targets)
  }

  /** The listed roles' targets sum to the turn budget and unlisted roles
      get none. */
  predicate SpendsBudget(roles: seq<Role>, intent: Intent, targets: map<Role, nat>) {
    (forall r :: r in targets) &&
    Sum(roles, Lookup(targets)) == TotalTurns(roles, intent) &&
    (forall r :: r !in roles ==> targets[r] == 0)
  }

  /** The lead gets at least two turns, every listed role its floor plus its
      whole share plus at most one leftover turn, a role without remainder no
      leftover, the leftovers go by descending remainder with ties in list
      order, and a non-lead persona with no weight for the intent nothing. */
  predicate RoundsShares(roles: seq<Role>, intent: Intent, targets: map<Role, nat>)
    requires |roles| >= 2
  {
    (forall r :: r in targets) &&
    targets[roles[0]] >= 2 &&
    (forall r :: r in roles ==> Base(roles, intent, r) <= targets[r] <= Base(roles, intent, r) + 1) &&
    (forall r :: r in roles && Rem(roles, intent, r) == 0 ==> targets[r] == Base(roles, intent, r)) &&
    (forall i, j ::
       0 <= i < |roles| && 0 <= j < |roles| &&
       targets[roles[i]] > Base(roles, intent, roles[i]) &&
       targets[roles[j]] == Base(roles, intent, roles[j]) ==>
       Rem(roles, intent, roles[i]) > Rem(roles, intent, roles[j]) ||
       (Rem(roles, intent, roles[i]) == Rem(roles, intent, roles[j]) && i < j)) &&
    (forall r :: r in roles && r != roles[0] && Weight(intent, r) == 0 ==> targets[r] == 0)
  }

  /** `targets` hold the floors of distinct personas and nothing else, and
      `remaining` is what the turn budget leaves over them. */
  predicate FloorsLaid(roles: seq<Role>, intent: Intent, remaining: int, targets: map<Role, nat>)
    requires |roles| >= 1
  {
    Distinct(roles) && remaining == Remaining(roles, intent) &&
    (forall r :: r in targets) &&
    (forall r :: r !in roles ==> targets[r] == 0) &&
    (forall r :: r in roles ==> targets[r] == Floor(intent, roles[0], r)) &&
    Sum(roles, Lookup(targets)) == MinSum(roles, intent)
  }

  /** `targets` hold a turn target for every role for a reply with these
      personas, the first being the lead: all zero for fewer than two
      personas, and a fair allocation for distinct personas. */
  predicate TargetsFor(roles: seq<Role>, intent: Intent, targets: map<Role, nat>) {
    (forall r :: r in targets) &&
    (|roles| <= 1 ==> forall r :: targets[r] == 0) &&
    (Distinct(roles) && |roles| >= 2 ==> FairTargets(roles, intent, targets))
  }

  method BuildTurnTargets(roles: seq<Role>, intent: Intent) returns (targets: map<Role, nat>)
    ensures TargetsFor(roles, intent, targets)
  {
    targets := map[CTO := 0, DEV := 0, PO := 0, PM := 0, CEO := 0, MARKETING := 0, RESEARCH := 0];
    forall r ensures r in targets && targets[r] == 0 { RoleInAll(r); }
    if |roles| >= 2 {
      var total := TotalTurns(roles, intent);
      var minSum;
      targets, minSum := LayFloors(roles, intent, total, targets);
      var remaining: int := total - minSum;
      if remaining > 0 {
        targets := ShareRemaining(roles, intent, remaining, targets);
      }
    }
  }

  /** The first phase of the allocation: the floors, repaired to fit the
      budget, written into the targets of the listed roles. For distinct
      roles the floors always fit, and what is left of the budget is the
      remainder the shares divide. */
  method LayFloors(roles: seq<Role>, intent: Intent, total: int, targets: map<Role, nat>)
    returns (out: map<Role, nat>, minSum: int)
    requires |roles| >= 2 && total == TotalTurns(roles, intent)
    requires forall r :: r in targets
    requires forall r :: r !in roles ==> targets[r] == 0
    ensures forall r :: r in out
    ensures Distinct(roles) ==> FloorsLaid(roles, intent, total - minSum, out) && total - minSum >= 1
  {
    ghost var good := Distinct(roles);
    if good {
      RemainingPositive(roles, intent);
    }
    var floorMins, floorSum := FloorTurns(roles, intent);
    var mins;
    var cut;
    mins, minSum, cut := RepairFloors(roles, floorMins, floorSum, total);
    RepairOutcome(roles, floorMins, floorSum, total, cut, mins, minSum);
    out := SetFloors(roles, mins, targets);
    if good {
      FloorsInPlace(roles, intent, mins, out);
    }
  }

  /** Shares `remaining` turns out over the floors already in `targets`: by
      effective weight, whole turns first, then one leftover turn each in
      order of descending remainder; with no weight at all, the lead takes
      them all. */
  method ShareRemaining(roles: seq<Role>, intent: Intent, remaining: int, targets: map<Role, nat>)
    returns (out: map<Role, nat>)
    requires |roles| >= 2 && remaining >= 1
    requires forall r :: r in targets
    ensures forall r :: r in out
    ensures FloorsLaid(roles, intent, remaining, targets) ==> FairTargets(roles, intent, out)
  {
    ghost var good := FloorsLaid(roles, intent, remaining, targets);
    var lead := roles[0];
    var effectiveWeights, weightSum := EffectiveWeights(roles, intent);
    if good {
      TotalWeightPositive(roles, intent);
    }
    if weightSum <= 0 {
      out := targets[lead := targets[lead] + remaining];
    } else {
      out := LargestRemainder(roles, intent, remaining, effectiveWeights, weightSum, targets);
    }
  }

  /** Largest-remainder rounding of `remaining` turns by the effective
      weights, on top of the floors already in `targets`. */
  method LargestRemainder(roles: seq<Role>, intent: Intent, remaining: int,
                          effectiveWeights: map<Role, nat>, weightSum: int, targets: map<Role, nat>)
    returns (out: map<Role, nat>)
    requires |roles| >= 2 && remaining >= 1 && weightSum >= 1
    requires forall r :: r in targets
    requires forall r :: r in effectiveWeights <==> r in roles
    requires forall r :: r in effectiveWeights ==> effectiveWeights[r] == EffWeight(intent, roles[0], r)
    requires weightSum == TotalWeight(roles, intent)
    ensures forall r :: r in out
    ensures FloorsLaid(roles, intent, remaining, targets) ==> FairTargets(roles, intent, out)
  {
    ghost var good := FloorsLaid(roles, intent, remaining, targets);
    var fractions, assignedTurns;
    var shared;
    shared, fractions, assignedTurns := ShareOut(roles, effectiveWeights, remaining, weightSum, targets);
    var sorted := SortFractions(fractions);
    var extra := remaining - assignedTurns;
    out := HandOutLeftovers(sorted, extra, shared);
    if good {
      SharedIsBase(roles, intent, targets, effectiveWeights, remaining, weightSum, shared, assignedTurns);
      FractionsAreRems(roles, intent, effectiveWeights, remaining, weightSum, fractions);
      StepsMeetTargets(roles, intent, targets, shared, fractions, assignedTurns, sorted, extra, out);
    }
  }

  /** Handing the leftovers to the first sorted fractions, on top of the
      floors and whole shares, gives the fair allocation. */
  lemma LeftoversMeetTargets(roles: seq<Role>, intent: Intent, fs: seq<Fraction>,
                             sorted: seq<Fraction>, extra: int, targets: map<Role, nat>)
    requires Distinct(roles) && |roles| >= 2 && Remaining(roles, intent) >= 1
    requires FractionsOf(roles, intent, fs) && multiset(sorted) == multiset(fs) && SortedByKey(sorted)
    requires extra == Remaining(roles, intent) - Sum(roles, ShareFn(roles, intent))
    requires forall r :: r in targets
    requires forall r :: targets[r] ==
               (if r in roles then Base(roles, intent, r) else 0) + (if extra >= 0 && Picked(sorted, extra, r) then 1 else 0)
    requires Sum(roles, Lookup(targets)) == MinSum(roles, intent) + Sum(roles, ShareFn(roles, intent)) + extra
    ensures FairTargets(roles, intent, targets)
  {
    LeftoversBound(roles, intent);
    LeftoversFollowOrder(roles, intent, fs, sorted, extra);
    SortedFacts(roles, intent, fs, sorted);
    forall t | 0 <= t < |sorted| ensures sorted[t].role in roles {
      assert sorted[t].role == roles[sorted[t].pos];
    }
    TargetsSpendBudget(roles, intent, sorted, extra, targets);
    TargetsRoundShares(roles, intent, sorted, extra, targets);
  }

  /** Base turns plus one leftover turn each for `extra` listed roles spend
      the budget. */
  lemma TargetsSpendBudget(roles: seq<Role>, intent: Intent, sorted: seq<Fraction>, extra: int,
                           targets: map<Role, nat>)
    requires |roles| >= 2
    requires forall r :: r in targets
    requires forall t :: 0 <= t < |sorted| ==> sorted[t].role in roles
    requires forall r :: targets[r] ==
               (if r in roles then Base(roles, intent, r) else 0) + (if extra >= 0 && Picked(sorted, extra, r) then 1 else 0)
    requires extra == Remaining(roles, intent) - Sum(roles, ShareFn(roles, intent))
    requires Sum(roles, Lookup(targets)) == MinSum(roles, intent) + Sum(roles, ShareFn(roles, intent)) + extra
    ensures SpendsBudget(roles, intent, targets)
  {
    forall r | r !in roles ensures targets[r] == 0 {
      assert !(extra >= 0 && Picked(sorted, extra, r));
    }
  }

  /** Base turns plus one leftover turn each for the first `extra` sorted
      fractions round the shares as specified. */
  lemma TargetsRoundShares(roles: seq<Role>, intent: Intent, sorted: seq<Fraction>, extra: int,
                           targets: map<Role, nat>)
    requires |roles| >= 2 && extra >= 0
    requires forall r :: r in targets
    requires forall r :: targets[r] ==
               (if r in roles then Base(roles, intent, r) else 0) + (if extra >= 0 && Picked(sorted, extra, r) then 1 else 0)
    requires forall r :: r in roles && Rem(roles, intent, r) == 0 ==> !Picked(sorted, extra, r)
    requires forall i, j ::
               0 <= i < |roles| && 0 <= j < |roles| &&
               Picked(sorted, extra, roles[i]) && !Picked(sorted, extra, roles[j]) ==>
               Rem(roles, intent, roles[i]) > Rem(roles, intent, roles[j]) ||
               (Rem(roles, intent, roles[i]) == Rem(roles, intent, roles[j]) && i < j)
    ensures RoundsShares(roles, intent, targets)
  {
    assert Floor(intent, roles[0], roles[0]) == 2;
    forall r | r in roles && r != roles[0] && Weight(intent, r) == 0 ensures targets[r] == 0 {
      ZeroWeightNoShare(roles, intent, r);
    }
  }

  /** Floors plus the computed whole shares are the specified base turns,
      and they sum to the floor total plus the specified shares. */
  lemma SharedIsBase(roles: seq<Role>, intent: Intent, floors: map<Role, nat>,
                     effectiveWeights: map<Role, nat>, remaining: int, weightSum: int,
                     shared: map<Role, nat>, assignedTurns: int)
    requires Distinct(roles) && |roles| >= 1
    requires remaining == Remaining(roles, intent) >= 1
    requires weightSum == TotalWeight(roles, intent) >= 1
    requires forall r :: r in effectiveWeights <==> r in roles
    requires forall r :: r in effectiveWeights ==> effectiveWeights[r] == EffWeight(intent, roles[0], r)
    requires forall r :: r in floors
    requires forall r :: r in roles ==> floors[r] == Floor(intent, roles[0], r)
    requires shared == AddShares(floors, roles, WholeFn(effectiveWeights, remaining, weightSum))
    requires assignedTurns == Sum(roles, WholeFn(effectiveWeights, remaining, weightSum))
    ensures forall r :: r in shared
    ensures forall r :: r in roles ==> shared[r] == Base(roles, intent, r)
    ensures forall r :: r !in roles ==> shared[r] == floors[r]
    ensures assignedTurns == Sum(roles, ShareFn(roles, intent))
    ensures Sum(roles, Lookup(shared)) == Sum(roles, Lookup(floors)) + assignedTurns
  {
    var whole := WholeFn(effectiveWeights, remaining, weightSum);
    WholeIsShare(roles, intent, effectiveWeights, remaining, weightSum);
    SharedPointwise(floors, roles, whole, shared);
    SharedSum(roles, intent, floors, whole, shared);
    forall r | r in roles ensures shared[r] == Base(roles, intent, r) {
      assert shared[r] == floors[r] + whole(r);
    }
  }

  /** The shares' sum is the specified one, and adding them to the floors
      adds it to the floors' sum. */
  lemma SharedSum(roles: seq<Role>, intent: Intent, floors: map<Role, nat>, whole: Role -> nat,
                  shared: map<Role, nat>)
    requires Distinct(roles) && |roles| >= 1
    requires forall r :: r in roles ==> whole(r) == Share(roles, intent, r)
    requires shared == AddShares(floors, roles, whole)
    ensures Sum(roles, whole) == Sum(roles, ShareFn(roles, intent))
    ensures Sum(roles, Lookup(shared)) == Sum(roles, Lookup(floors)) + Sum(roles, whole)
  {
    AddSharesSum(floors, roles, whole);
    SumPointwise(roles, whole, ShareFn(roles, intent));
  }

  /** Adding the shares to every listed role, role by role. */
  lemma SharedPointwise(floors: map<Role, nat>, roles: seq<Role>, whole: Role -> nat, shared: map<Role, nat>)
    requires Distinct(roles)
    requires forall r :: r in floors
    requires shared == AddShares(floors, roles, whole)
    ensures forall r :: r in shared
    ensures forall r :: r in roles ==> shared[r] == floors[r] + whole(r)
    ensures forall r :: r !in roles ==> shared[r] == floors[r]
  {
    forall r ensures r in shared && At(shared, r) == At(floors, r) + (if r in roles then whole(r) else 0) {
      AddSharesAt(floors, roles, whole, r);
    }
  }

  lemma WholeIsShare(roles: seq<Role>, intent: Intent, effectiveWeights: map<Role, nat>,
                     remaining: int, weightSum: int)
    requires |roles| >= 1
    requires remaining == Remaining(roles, intent) >= 1
    requires weightSum == TotalWeight(roles, intent) >= 1
    requires forall r :: r in effectiveWeights <==> r in roles
    requires forall r :: r in effectiveWeights ==> effectiveWeights[r] == EffWeight(intent, roles[0], r)
    ensures forall r :: r in roles ==> WholeFn(effectiveWeights, remaining, weightSum)(r) == Share(roles, intent, r)
  {
  }

  /** The computed fractions are the specified remainders, in list order. */
  lemma FractionsAreRems(roles: seq<Role>, intent: Intent, effectiveWeights: map<Role, nat>,
                         remaining: int, weightSum: int, fractions: seq<Fraction>)
    requires |roles| >= 1
    requires remaining == Remaining(roles, intent) >= 1
    requires weightSum == TotalWeight(roles, intent) >= 1
    requires forall r :: r in effectiveWeights <==> r in roles
    requires forall r :: r in effectiveWeights ==> effectiveWeights[r] == EffWeight(intent, roles[0], r)
    requires |fractions| == |roles|
    requires forall t :: 0 <= t < |roles| ==>
               fractions[t] == Fraction(roles[t], FracOf(remaining, effectiveWeights[roles[t]], weightSum) as nat, t)
    ensures FractionsOf(roles, intent, fractions)
  {
  }

  /** The leftover step, applied to the base turns, gives the fair
      allocation. */
  lemma StepsMeetTargets(roles: seq<Role>, intent: Intent, floors: map<Role, nat>,
                         shared: map<Role, nat>, fractions: seq<Fraction>, assignedTurns: int,
                         sorted: seq<Fraction>, extra: int, targets: map<Role, nat>)
    requires Distinct(roles) && |roles| >= 2
    requires Remaining(roles, intent) >= 1
    requires forall r :: r in floors && r in shared
    requires forall r :: r !in roles ==> floors[r] == 0
    requires Sum(roles, Lookup(floors)) == MinSum(roles, intent)
    requires forall r :: r !in roles ==> shared[r] == floors[r]
    requires forall r :: r in roles ==> shared[r] == Base(roles, intent, r)
    requires assignedTurns == Sum(roles, ShareFn(roles, intent))
    requires Sum(roles, Lookup(shared)) == Sum(roles, Lookup(floors)) + assignedTurns
    requires FractionsOf(roles, intent, fractions)
    requires multiset(sorted) == multiset(fractions) && SortedByKey(sorted)
    requires extra == Remaining(roles, intent) - assignedTurns
    requires targets == HandOut(shared, sorted, if extra > 0 then extra else 0)
    ensures FairTargets(roles, intent, targets)
  {
    LeftoversBound(roles, intent);
    LeftoversFollowOrder(roles, intent, fractions, sorted, extra);
    SortedFacts(roles, intent, fractions, sorted);
    forall r ensures At(targets, r) == At(shared, r) + (if Picked(sorted, extra, r) then 1 else 0) {
      HandOutAt(shared, sorted, extra, r);
    }
    forall t | 0 <= t < |sorted| ensures sorted[t].role in roles {
      assert sorted[t].role == roles[sorted[t].pos];
    }
    HandOutSum(shared, roles, sorted, extra);
    LeftoversMeetTargets(roles, intent, fractions, sorted, extra, targets);
  }
}
