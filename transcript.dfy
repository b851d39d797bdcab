/** The transcript normaliser: reads the persona lines of a model reply, keeps
    the lines of the conversation's roles up to each role's turn target, moves
    the lead's first line to the front and its last line to the end, and
    renumbers the result. */
module Transcript {
  import opened Wrappers
  import opened Text
  import opened Seqs
  import opened Vocabulary
  import opened Personas
  import Allocation

  /** One persona line of a reply: the speaking role and what it says. */
  datatype Line = Line(role: Role, message: string)

  /** The two capture groups of /^(?:\[\d+\]\s*)?([A-Z]+):\s*(.+)$/. */
  datatype LineMatch = LineMatch(name: string, message: string)

  /** A message as the normaliser keeps it: non-empty, trimmed, on one line. */
  predicate IsMessage(s: string) {
    s != [] && IsTrimmed(s) && AllLineChars(s)
  }

  // ---------------------------------------------------------------------
  // Reading one line

  /** Where the role name starts: after the optional `[digits]` and the white
      space that follows it. A line that opens with `[` but not with a
      bracketed number cannot match at all, since `[` is not a name letter. */
  function NameStart(line: string): (j: Option<nat>)
    ensures j.Some? ==> j.value <= |line|
  {
    if |line| > 0 && line[0] == '[' then
      var d := RunEnd(line, 1, IsDigit);
      if d > 1 && d < |line| && line[d] == ']' then Some(RunEnd(line, d + 1, IsSpace)) else None
    else Some(0)
  }

  /** The regular expression /^(?:\[\d+\]\s*)?([A-Z]+):\s*(.+)$/ applied to a
      line. The name is the longest run of capitals, which must be followed
      by `:`; the white space after the colon is taken greedily, and the
      message is everything after it, provided no line terminator occurs
      there. When the white space reaches the end, backtracking hands its last
      character to the message. */
  function MatchLine(line: string): (m: Option<LineMatch>)
    ensures m.Some? ==> |m.value.name| >= 1 && forall k :: 0 <= k < |m.value.name| ==> IsUpper(m.value.name[k])
    ensures m.Some? ==> m.value.message != [] && AllLineChars(m.value.message)
  {
    var start := NameStart(line);
    if start.None? then None
    else
      var i := start.value;
      var e := RunEnd(line, i, IsUpper);
      if e == i || e == |line| || line[e] != ':' then None
      else
        var w := RunEnd(line, e + 1, IsSpace);
        var rest := line[w..];
        if rest != [] then
          if AllLineChars(rest) then Some(LineMatch(line[i..e], rest)) else None
        else if w > e + 1 && IsLineChar(line[w - 1]) then Some(LineMatch(line[i..e], [line[w - 1]]))
        else None
  }

  /** Trimming keeps a text on one line. */
  lemma TrimLineChars(s: string)
    requires AllLineChars(s)
    ensures AllLineChars(Trim(s))
  {
    var t := TrimStart(s);
    SliceLineChars(s, |s| - |t|, |s|);
    var r := TrimEnd(t);
    SliceLineChars(t, 0, |r|);
  }

  lemma SliceLineChars(s: string, a: nat, b: nat)
    requires AllLineChars(s) && a <= b <= |s|
    ensures AllLineChars(s[a..b])
  {
    assert forall k :: 0 <= k < b - a ==> s[a..b][k] == s[a + k];
  }

  /** One raw line of the reply, read as a persona line of an active role:
      trimmed, matched, its name normalised, its message trimmed. */
  function ParseLine(raw: string, roles: seq<Role>): (l: Option<Line>)
    ensures l.Some? ==> l.value.role in roles && IsMessage(l.value.message)
  {
    var line := Trim(raw);
    if line == [] then None
    else
      var m := MatchLine(line);
      if m.None? then None
      else
        var role := NormalizeRole(m.value.name);
        if role.None? || role.value !in roles then None
        else
          var message := Trim(m.value.message);
          TrimLineChars(m.value.message);
          TrimFixesTrimmed(m.value.message);
          if message == [] then None else Some(Line(role.value, message))
  }

  function Parser(roles: seq<Role>): string -> Option<Line> {
    raw => ParseLine(raw, roles)
  }

  /** The persona lines of active roles in the reply, in order. */
  function Matched(text: string, roles: seq<Role>): seq<Line> {
    Recognised(Split(text, '\n'), Parser(roles))
  }

  // ---------------------------------------------------------------------
  // Keeping each role within its target

  /** The lines of role `r`, in order. */
  function OfRole(ls: seq<Line>, r: Role): (o: seq<Line>)
    ensures |o| <= |ls|
  {
    if ls == [] then []
    else OfRole(ls[..|ls| - 1], r) + (if ls[|ls| - 1].role == r then [ls[|ls| - 1]] else [])
  }

  function RoleCount(ls: seq<Line>, r: Role): nat {
    |OfRole(ls, r)|
  }

  function Min(a: nat, b: nat): nat { if a <= b then a else b }

  /** The lines kept by the quota pass: a line is kept when fewer lines of its
      role than its target have been kept before it. A role with target 0
      (or no target) keeps none. */
  function Select(ls: seq<Line>, targets: map<Role, nat>): seq<Line> {
    if ls == [] then []
    else
      var kept := Select(ls[..|ls| - 1], targets);
      var l := ls[|ls| - 1];
      if RoleCount(kept, l.role) < Allocation.At(targets, l.role) then kept + [l] else kept
  }

  lemma {:induction false} OfRoleAppend(a: seq<Line>, b: seq<Line>, r: Role)
    ensures OfRole(a + b, r) == OfRole(a, r) + OfRole(b, r)
    decreases |b|
  {
    if b == [] {
      assert a + b == a;
    } else {
      var n := |b| - 1;
      assert (a + b)[..|a + b| - 1] == a + b[..n];
      OfRoleAppend(a, b[..n], r);
    }
  }

  /** The quota pass keeps, for every role, the first lines of that role up
      to its target, and nothing else. */
  lemma {:induction false} SelectKeepsFirstLines(ls: seq<Line>, targets: map<Role, nat>, r: Role)
    ensures OfRole(Select(ls, targets), r) ==
            OfRole(ls, r)[..Min(RoleCount(ls, r), Allocation.At(targets, r))]
  {
    if ls != [] {
      var init := ls[..|ls| - 1];
      SelectKeepsFirstLines(init, targets, r);
      assert ls == init + [ls[|ls| - 1]];
      SelectKeepStep(init, ls[|ls| - 1], targets, r);
    }
  }

  /** One more line keeps the first-lines property of the quota pass. */
  lemma SelectKeepStep(init: seq<Line>, l: Line, targets: map<Role, nat>, r: Role)
    requires OfRole(Select(init, targets), r) ==
             OfRole(init, r)[..Min(RoleCount(init, r), Allocation.At(targets, r))]
    ensures OfRole(Select(init + [l], targets), r) ==
            OfRole(init + [l], r)[..Min(RoleCount(init + [l], r), Allocation.At(targets, r))]
  {
    var kept := Select(init, targets);
    SelectSnoc(init, l, targets);
    OfRoleAppend(kept, [l], r);
    OfRoleAppend(init, [l], r);
    OfRoleSingle(l, r);
    if l.role == r {
      SelectSameRole(init, l, targets, kept);
    } else {
      SelectOtherRole(init, l, targets, kept, r);
    }
  }

  /** The quota pass on one more line. */
  lemma SelectSnoc(init: seq<Line>, l: Line, targets: map<Role, nat>)
    ensures Select(init + [l], targets) ==
            var kept := Select(init, targets);
            if RoleCount(kept, l.role) < Allocation.At(targets, l.role) then kept + [l] else kept
  {
    var ls := init + [l];
    assert ls[..|ls| - 1] == init && ls[|ls| - 1] == l;
  }

  lemma OfRoleSingle(l: Line, r: Role)
    ensures OfRole([l], r) == (if l.role == r then [l] else [])
  {
    assert [l][..0] == [];
  }

  lemma SelectOtherRole(init: seq<Line>, l: Line, targets: map<Role, nat>, kept: seq<Line>, r: Role)
    requires l.role != r && kept == Select(init, targets)
    requires OfRole(kept, r) == OfRole(init, r)[..Min(RoleCount(init, r), Allocation.At(targets, r))]
    requires OfRole(kept + [l], r) == OfRole(kept, r) + OfRole([l], r)
    requires OfRole(init + [l], r) == OfRole(init, r) + OfRole([l], r)
    requires OfRole([l], r) == []
    requires Select(init + [l], targets) == kept || Select(init + [l], targets) == kept + [l]
    ensures OfRole(Select(init + [l], targets), r) ==
            OfRole(init + [l], r)[..Min(RoleCount(init + [l], r), Allocation.At(targets, r))]
  {
    assert OfRole(kept + [l], r) == OfRole(kept, r);
    assert OfRole(init + [l], r) == OfRole(init, r);
  }

  lemma SelectSameRole(init: seq<Line>, l: Line, targets: map<Role, nat>, kept: seq<Line>)
    requires kept == Select(init, targets)
    requires OfRole(kept, l.role) ==
             OfRole(init, l.role)[..Min(RoleCount(init, l.role), Allocation.At(targets, l.role))]
    requires OfRole(kept + [l], l.role) == OfRole(kept, l.role) + [l]
    requires OfRole(init + [l], l.role) == OfRole(init, l.role) + [l]
    requires Select(init + [l], targets) ==
             if RoleCount(kept, l.role) < Allocation.At(targets, l.role) then kept + [l] else kept
    ensures OfRole(Select(init + [l], targets), l.role) ==
            OfRole(init + [l], l.role)[..Min(RoleCount(init + [l], l.role), Allocation.At(targets, l.role))]
  {
    KeepStep(OfRole(init, l.role), OfRole(kept, l.role), l, Allocation.At(targets, l.role));
  }

  lemma KeepStep(o: seq<Line>, k: seq<Line>, l: Line, q: nat)
    requires k == o[..Min(|o|, q)]
    ensures (if |k| < q then k + [l] else k) == (o + [l])[..Min(|o| + 1, q)]
  {
    if |o| < q {
      assert o[..|o|] == o;
    } else {
      assert (o + [l])[..q] == o[..q];
    }
  }

  /** The quota pass keeps as many lines of each role as it has, up to the
      role's target. */
  lemma SelectCounts(ls: seq<Line>, targets: map<Role, nat>, r: Role)
    ensures RoleCount(Select(ls, targets), r) == Min(RoleCount(ls, r), Allocation.At(targets, r))
  {
    SelectKeepsFirstLines(ls, targets, r);
  }

  /** Every kept line is one of the input lines. */
  lemma {:induction false} SelectFromInput(ls: seq<Line>, targets: map<Role, nat>)
    ensures forall l :: l in Select(ls, targets) ==> l in ls
  {
    if ls != [] {
      SelectFromInput(ls[..|ls| - 1], targets);
    }
  }

  /** Lines already within their targets are all kept. */
  lemma {:induction false} SelectWithinQuota(ls: seq<Line>, targets: map<Role, nat>)
    requires forall r :: RoleCount(ls, r) <= Allocation.At(targets, r)
    ensures Select(ls, targets) == ls
  {
    if ls != [] {
      var init := ls[..|ls| - 1];
      var l := ls[|ls| - 1];
      forall r ensures RoleCount(init, r) <= Allocation.At(targets, r) {
        assert RoleCount(ls, r) == RoleCount(init, r) + (if l.role == r then 1 else 0);
      }
      SelectWithinQuota(init, targets);
      assert RoleCount(ls, l.role) == RoleCount(init, l.role) + 1;
      assert Select(ls, targets) == init + [l];
      assert ls == init + [l];
    }
  }

  // ---------------------------------------------------------------------
  // Moving the lead's lines

  /** `findIndex` for a line of `lead`: the first such index, or -1. */
  function FindLead(ls: seq<Line>, lead: Role): (i: int)
    ensures -1 <= i < |ls|
    ensures i >= 0 ==> ls[i].role == lead
    ensures forall k :: 0 <= k < |ls| && (i < 0 || k < i) ==> ls[k].role != lead
  {
    if ls == [] then -1
    else
      var i := FindLead(ls[..|ls| - 1], lead);
      if i >= 0 then i else if ls[|ls| - 1].role == lead then |ls| - 1 else -1
  }

  /** The last index of a line of `lead`, or -1. */
  function LastLead(ls: seq<Line>, lead: Role): (j: int)
    ensures -1 <= j < |ls|
    ensures j >= 0 ==> ls[j].role == lead
    ensures forall k :: j < k < |ls| ==> ls[k].role != lead
  {
    if ls == [] then -1
    else if ls[|ls| - 1].role == lead then |ls| - 1
    else LastLead(ls[..|ls| - 1], lead)
  }

  /** The first index of the lead's lines is the only index that has a lead
      line and none before it. */
  lemma FindLeadUnique(ls: seq<Line>, lead: Role, i: int)
    requires -1 <= i < |ls| && (i >= 0 ==> ls[i].role == lead)
    requires forall k :: 0 <= k < |ls| && (i < 0 || k < i) ==> ls[k].role != lead
    ensures i == FindLead(ls, lead)
  {
  }

  /** Likewise for the last index. */
  lemma LastLeadUnique(ls: seq<Line>, lead: Role, j: int)
    requires -1 <= j < |ls| && (j >= 0 ==> ls[j].role == lead)
    requires forall k :: j < k < |ls| ==> ls[k].role != lead
    ensures j == LastLead(ls, lead)
  {
  }

  /** The lead's first line, when it is not first already, moved to the front. */
  function LeadToFront(ls: seq<Line>, lead: Role): seq<Line> {
    var i := FindLead(ls, lead);
    if i > 0 then [ls[i]] + (ls[..i] + ls[i + 1..]) else ls
  }

  /** The lead's last line, when it is not last already, moved to the end. */
  function LeadToBack(ls: seq<Line>, lead: Role): seq<Line> {
    var j := LastLead(ls, lead);
    if 0 <= j < |ls| - 1 then (ls[..j] + ls[j + 1..]) + [ls[j]] else ls
  }

  function Reorder(ls: seq<Line>, lead: Role): seq<Line> {
    LeadToBack(LeadToFront(ls, lead), lead)
  }

  /** Moving one line elsewhere changes no role's lines except, for the
      moved line's role, their order. */
  lemma MoveLine(a: seq<Line>, x: Line, b: seq<Line>, r: Role)
    ensures RoleCount([x] + (a + b), r) == RoleCount(a + [x] + b, r) == RoleCount((a + b) + [x], r)
    ensures x.role != r ==>
              OfRole([x] + (a + b), r) == OfRole(a + [x] + b, r) == OfRole((a + b) + [x], r)
  {
    OfRoleAppend([x], a + b, r);
    OfRoleAppend(a, b, r);
    OfRoleAppend(a + [x], b, r);
    OfRoleAppend(a, [x], r);
    OfRoleAppend(a + b, [x], r);
    assert OfRole([x], r) == (if x.role == r then [x] else []) by { assert [x][..0] == []; }
  }

  lemma Splice(ls: seq<Line>, i: nat)
    requires i < |ls|
    ensures ls == ls[..i] + [ls[i]] + ls[i + 1..]
  {
  }

  lemma FrontKeepsLines(ls: seq<Line>, lead: Role, r: Role)
    ensures RoleCount(LeadToFront(ls, lead), r) == RoleCount(ls, r)
    ensures multiset(LeadToFront(ls, lead)) == multiset(ls)
    ensures r != lead ==> OfRole(LeadToFront(ls, lead), r) == OfRole(ls, r)
  {
    var i := FindLead(ls, lead);
    if i > 0 {
      Splice(ls, i);
      MoveLine(ls[..i], ls[i], ls[i + 1..], r);
    }
  }

  lemma BackKeepsLines(ls: seq<Line>, lead: Role, r: Role)
    ensures RoleCount(LeadToBack(ls, lead), r) == RoleCount(ls, r)
    ensures multiset(LeadToBack(ls, lead)) == multiset(ls)
    ensures r != lead ==> OfRole(LeadToBack(ls, lead), r) == OfRole(ls, r)
  {
    var j := LastLead(ls, lead);
    if 0 <= j < |ls| - 1 {
      Splice(ls, j);
      MoveLine(ls[..j], ls[j], ls[j + 1..], r);
    }
  }

  /** Moving the lead's lines changes no role's line count, and leaves the
      lines of every other role in their order. */
  lemma ReorderKeepsLines(ls: seq<Line>, lead: Role, r: Role)
    ensures RoleCount(Reorder(ls, lead), r) == RoleCount(ls, r)
    ensures multiset(Reorder(ls, lead)) == multiset(ls)
    ensures |Reorder(ls, lead)| == |ls|
    ensures r != lead ==> OfRole(Reorder(ls, lead), r) == OfRole(ls, r)
  {
    FrontKeepsLines(ls, lead, r);
    BackKeepsLines(LeadToFront(ls, lead), lead, r);
    assert |Reorder(ls, lead)| == |multiset(Reorder(ls, lead))|;
  }

  lemma {:induction false} CountedOnce(ls: seq<Line>, k: nat)
    requires k < |ls|
    ensures RoleCount(ls, ls[k].role) >= 1
  {
    if k < |ls| - 1 {
      CountedOnce(ls[..|ls| - 1], k);
    }
  }

  lemma {:induction false} CountedNone(ls: seq<Line>, r: Role)
    requires forall k :: 0 <= k < |ls| ==> ls[k].role != r
    ensures RoleCount(ls, r) == 0
  {
    if ls != [] {
      CountedNone(ls[..|ls| - 1], r);
    }
  }

  /** A sequence whose only line of `r` is its first has one line of `r`. */
  lemma CountedFirstOnly(ls: seq<Line>, r: Role)
    requires |ls| >= 1 && ls[0].role == r
    requires forall k :: 0 < k < |ls| ==> ls[k].role != r
    ensures RoleCount(ls, r) == 1
  {
    CountedNone(ls[1..], r);
    OfRoleAppend([ls[0]], ls[1..], r);
    assert ls == [ls[0]] + ls[1..];
    assert OfRole([ls[0]], r) == [ls[0]] by { assert [ls[0]][..0] == []; }
  }

  /** A lead with a line speaks first after the first move. */
  lemma FrontPlacesLead(ls: seq<Line>, lead: Role)
    requires RoleCount(ls, lead) >= 1
    ensures |LeadToFront(ls, lead)| == |ls| && LeadToFront(ls, lead)[0].role == lead
  {
    if FindLead(ls, lead) < 0 { CountedNone(ls, lead); }
  }

  /** Moving the last lead line of a sequence that starts with the lead puts a
      lead line last, and keeps the first one when there are two or more. */
  lemma BackPlacesLead(ls: seq<Line>, lead: Role)
    requires |ls| >= 1 && ls[0].role == lead
    ensures |LeadToBack(ls, lead)| == |ls|
    ensures LeadToBack(ls, lead)[|ls| - 1].role == lead
    ensures RoleCount(ls, lead) >= 2 ==> LeadToBack(ls, lead)[0].role == lead
  {
    var j := LastLead(ls, lead);
    assert j >= 0;
    if j == 0 {
      CountedFirstOnly(ls, lead);
    }
  }

  /** After the move, a lead that has a kept line speaks last, and one that
      has two or more speaks first as well. */
  lemma ReorderPlacesLead(ls: seq<Line>, lead: Role)
    ensures |Reorder(ls, lead)| == |ls|
    ensures RoleCount(ls, lead) >= 1 ==> Reorder(ls, lead)[|ls| - 1].role == lead
    ensures RoleCount(ls, lead) >= 2 ==> Reorder(ls, lead)[0].role == lead
  {
    ReorderKeepsLines(ls, lead, lead);
    if RoleCount(ls, lead) >= 1 {
      ReorderPlacesLeadSome(ls, lead, LeadToFront(ls, lead));
    }
  }

  lemma ReorderPlacesLeadSome(ls: seq<Line>, lead: Role, front: seq<Line>)
    requires RoleCount(ls, lead) >= 1 && front == LeadToFront(ls, lead)
    ensures |LeadToBack(front, lead)| == |ls|
    ensures LeadToBack(front, lead)[|ls| - 1].role == lead
    ensures RoleCount(ls, lead) >= 2 ==> LeadToBack(front, lead)[0].role == lead
  {
    FrontPlacesLead(ls, lead);
    FrontKeepsLines(ls, lead, lead);
    BackPlacesLead(front, lead);
  }

  /** Two lines of the same role make a count of at least two. */
  lemma CountedTwice(ls: seq<Line>, i: nat, j: nat)
    requires i < j < |ls| && ls[i].role == ls[j].role
    ensures RoleCount(ls, ls[i].role) >= 2
  {
    var r := ls[i].role;
    assert ls == ls[..j] + ls[j..];
    OfRoleAppend(ls[..j], ls[j..], r);
    CountedOnce(ls[..j], i);
    CountedOnce(ls[j..], 0);
  }

  /** Without a lead line, nothing moves. */
  lemma NoLeadFixed(ls: seq<Line>, lead: Role)
    requires RoleCount(ls, lead) == 0
    ensures Reorder(ls, lead) == ls
  {
    forall k | 0 <= k < |ls| ensures ls[k].role != lead {
      if ls[k].role == lead { CountedOnce(ls, k); }
    }
    assert FindLead(ls, lead) == -1;
    assert LastLead(ls, lead) == -1;
  }

  /** A lead line at both ends: nothing moves. */
  lemma BothEndsFixed(y: seq<Line>, lead: Role)
    requires |y| >= 1 && y[0].role == lead && y[|y| - 1].role == lead
    ensures Reorder(y, lead) == y
  {
    assert FindLead(y, lead) == 0;
    assert LeadToFront(y, lead) == y;
    assert LastLead(y, lead) == |y| - 1;
  }

  /** A single lead line, at the end: it moves to the front and back again. */
  lemma LastOnlyFixed(y: seq<Line>, lead: Role)
    requires |y| >= 2 && y[|y| - 1].role == lead && RoleCount(y, lead) == 1
    ensures Reorder(y, lead) == y
  {
    var n := |y|;
    forall k | 0 <= k < n - 1 ensures y[k].role != lead {
      if y[k].role == lead { CountedTwice(y, k, n - 1); }
    }
    assert FindLead(y, lead) == n - 1;
    var z := LeadToFront(y, lead);
    assert z == [y[n - 1]] + y[..n - 1];
    forall k | 1 <= k < n ensures z[k].role != lead { assert z[k] == y[k - 1]; }
    assert |z| == n && z[0].role == lead;
    var j := LastLead(z, lead);
    assert j >= 0;
    assert j == 0;
    assert LeadToBack(z, lead) == z[1..] + [z[0]];
    assert z[1..] == y[..n - 1];
  }

  /** Moving the lead's lines a second time changes nothing. */
  lemma ReorderIdempotent(ls: seq<Line>, lead: Role)
    ensures Reorder(Reorder(ls, lead), lead) == Reorder(ls, lead)
  {
    var y := Reorder(ls, lead);
    ReorderPlacesLead(ls, lead);
    ReorderKeepsLines(ls, lead, lead);
    if RoleCount(ls, lead) == 0 {
      NoLeadFixed(ls, lead);
      NoLeadFixed(y, lead);
    } else if RoleCount(ls, lead) >= 2 || |y| == 1 {
      BothEndsFixed(y, lead);
    } else {
      LastOnlyFixed(y, lead);
    }
  }

  /** The lines of roles other than `lead`, in order. */
  function Others(ls: seq<Line>, lead: Role): (o: seq<Line>)
    ensures |o| <= |ls|
  {
    if ls == [] then []
    else Others(ls[..|ls| - 1], lead) + (if ls[|ls| - 1].role != lead then [ls[|ls| - 1]] else [])
  }

  lemma {:induction false} OthersAppend(a: seq<Line>, b: seq<Line>, lead: Role)
    ensures Others(a + b, lead) == Others(a, lead) + Others(b, lead)
    decreases |b|
  {
    if b == [] {
      assert a + b == a;
    } else {
      var n := |b| - 1;
      assert (a + b)[..|a + b| - 1] == a + b[..n];
      OthersAppend(a, b[..n], lead);
    }
  }

  lemma MoveLeadLine(a: seq<Line>, x: Line, b: seq<Line>, lead: Role)
    requires x.role == lead
    ensures Others([x] + (a + b), lead) == Others(a + [x] + b, lead)
    ensures Others((a + b) + [x], lead) == Others(a + [x] + b, lead)
  {
    var ox := Others([x], lead);
    assert ox == [] by { assert [x][..0] == []; }
    var oa, ob := Others(a, lead), Others(b, lead);
    OthersAppend(a, b, lead);
    OthersAppend([x], a + b, lead);
    OthersAppend(a + b, [x], lead);
    OthersAppend(a + [x], b, lead);
    OthersAppend(a, [x], lead);
    assert Others(a + [x], lead) == oa;
    assert Others(a + [x] + b, lead) == oa + ob;
  }

  /** Moving the lead's lines leaves the other lines in their relative order. */
  lemma ReorderKeepsOthers(ls: seq<Line>, lead: Role)
    ensures Others(Reorder(ls, lead), lead) == Others(ls, lead)
  {
    FrontKeepsOthers(ls, lead);
    BackKeepsOthers(LeadToFront(ls, lead), lead);
  }

  lemma FrontKeepsOthers(ls: seq<Line>, lead: Role)
    ensures Others(LeadToFront(ls, lead), lead) == Others(ls, lead)
  {
    var i := FindLead(ls, lead);
    if i > 0 {
      Splice(ls, i);
      MoveLeadLine(ls[..i], ls[i], ls[i + 1..], lead);
    }
  }

  lemma BackKeepsOthers(ls: seq<Line>, lead: Role)
    ensures Others(LeadToBack(ls, lead), lead) == Others(ls, lead)
  {
    var j := LastLead(ls, lead);
    if 0 <= j < |ls| - 1 {
      Splice(ls, j);
      MoveLeadLine(ls[..j], ls[j], ls[j + 1..], lead);
    }
  }

  // ---------------------------------------------------------------------
  // Rendering

  /** One line of a normalised transcript: "[n] ROLE: message". */
  function RenderLine(l: Line, n: nat): string {
    "[" + NatToString(n) + "] " + RoleName(l.role) + ": " + l.message
  }

  /** The lines numbered from `n` on. */
  function RenderFrom(ls: seq<Line>, n: nat): (r: seq<string>)
    ensures |r| == |ls|
    decreases |ls|
  {
    if ls == [] then [] else [RenderLine(ls[0], n)] + RenderFrom(ls[1..], n + 1)
  }

  /** The transcript: the lines numbered from 1, a blank line between each two. */
  function Render(ls: seq<Line>): string {
    Join(RenderFrom(ls, 1), "\n\n")
  }

  /** The pieces `xs` with an empty piece between each two: what splitting
      at single newlines sees of pieces joined by blank lines. */
  function Spaced(xs: seq<string>): seq<string>
    decreases |xs|
  {
    if |xs| <= 1 then xs else [xs[0], ""] + Spaced(xs[1..])
  }

  /** Splitting pieces joined by blank lines at every newline gives the
      pieces back with empty pieces between them. */
  lemma {:induction false} SplitBlankJoin(xs: seq<string>)
    requires |xs| >= 1
    requires forall k :: 0 <= k < |xs| ==> '\n' !in xs[k]
    ensures Split(Join(xs, "\n\n"), '\n') == Spaced(xs)
    decreases |xs|
  {
    if |xs| == 1 {
      SplitSingle(xs[0], '\n');
    } else {
      var rest := Join(xs[1..], "\n\n");
      assert Join(xs, "\n\n") == xs[0] + "\n\n" + rest;
      SplitBlankStep(xs[0], rest);
      SplitBlankJoin(xs[1..]);
    }
  }

  /** One piece before a blank line splits off as itself and an empty piece. */
  lemma SplitBlankStep(a: string, rest: string)
    requires '\n' !in a
    ensures Split(a + "\n\n" + rest, '\n') == [a, ""] + Split(rest, '\n')
  {
    var tail := ['\n'] + rest;
    assert a + "\n\n" + rest == a + ['\n'] + tail;
    SplitPieceFirst(a, '\n', tail);
    SplitSepFirst(rest, '\n');
  }

  /** A leading separator splits off an empty piece. */
  lemma SplitSepFirst(rest: string, sep: char)
    ensures Split([sep] + rest, sep) == [""] + Split(rest, sep)
  {
    assert ([sep] + rest)[1..] == rest;
  }

  /** The empty pieces between the lines are read as no line at all. */
  lemma {:induction false} RecognisedSpaced<B>(xs: seq<string>, f: string -> Option<B>)
    requires f("") == None
    ensures Recognised(Spaced(xs), f) == Recognised(xs, f)
    decreases |xs|
  {
    if |xs| > 1 {
      var head: seq<string> := [xs[0], ""];
      var tail := Spaced(xs[1..]);
      assert Spaced(xs) == head + tail;
      RecognisedAppend(head, tail, f);
      assert Recognised(head, f) == Recognised([xs[0]], f) by { assert head[..1] == [xs[0]]; }
      RecognisedSpaced(xs[1..], f);
      assert xs == [xs[0]] + xs[1..];
      RecognisedAppend([xs[0]], xs[1..], f);
    }
  }

  /** A rendered line holds no newline. */
  lemma RenderedLineOneLine(l: Line, n: nat)
    requires IsMessage(l.message)
    ensures '\n' !in RenderLine(l, n)
  {
    var D := NatToString(n);
    var N := RoleName(l.role);
    var M := l.message;
    RoleNameShape(l.role);
    assert '\n' !in D by { assert forall k :: 0 <= k < |D| ==> IsDigit(D[k]); }
    assert '\n' !in N by { assert forall k :: 0 <= k < |N| ==> IsUpper(N[k]); }
    assert '\n' !in M by { assert forall k :: 0 <= k < |M| ==> IsLineChar(M[k]); }
    assert '\n' !in "[" + D + "] ";
    assert '\n' !in "[" + D + "] " + N;
    assert '\n' !in "[" + D + "] " + N + ": ";
  }

  /** A rendered line is trimmed and matches the line pattern with the
      role's name and the message. */
  lemma RenderedLineMatches(l: Line, n: nat)
    requires IsMessage(l.message)
    ensures RenderLine(l, n) != [] && IsTrimmed(RenderLine(l, n))
    ensures MatchLine(RenderLine(l, n)) == Some(LineMatch(RoleName(l.role), l.message))
  {
    RoleNameShape(l.role);
    ShapedLine(NatToString(n), RoleName(l.role), l.message);
  }

  /** "[D] N: M" for digits D, capitals N and a kept message M is trimmed and
      matches the line pattern with name N and message M. */
  lemma ShapedLine(D: string, N: string, M: string)
    requires |D| >= 1 && AllDigits(D)
    requires |N| >= 1 && forall k :: 0 <= k < |N| ==> IsUpper(N[k])
    requires IsMessage(M)
    ensures var s := "[" + D + "] " + N + ": " + M;
      s != [] && IsTrimmed(s) && MatchLine(s) == Some(LineMatch(N, M))
  {
    var pre := "[" + D + "] ";
    var s := pre + N + ": " + M;
    var d := 1 + |D|;
    var i := d + 2;
    var e := i + |N|;
    var w := e + 2;
    assert |pre| == i;
    assert pre[1..d] == D;
    forall k | 1 <= k < d ensures IsDigit(s[k]) { assert s[k] == pre[k] == D[k - 1]; }
    assert s[d] == pre[d] == ']';
    assert s[d + 1] == pre[d + 1] == ' ';
    assert s[i..e] == N;
    forall k | i <= k < e ensures IsUpper(s[k]) { assert s[k] == N[k - i]; }
    assert s[e] == ':' && s[e + 1] == ' ';
    assert s[w..] == M;
    assert s[|s| - 1] == M[|M| - 1];
    assert IsTrimmed(s) by { assert s[0] == '['; assert !IsSpace(M[|M| - 1]); }
    MatchShaped(s, d, e, N, M);
  }

  /** A line shaped "[digits] NAME: message" matches the line pattern with
      that name and message. */
  lemma MatchShaped(s: string, d: nat, e: nat, name: string, message: string)
    requires 1 < d && d + 2 + |name| == e && e + 2 + |message| == |s|
    requires s[0] == '[' && (forall k :: 1 <= k < d ==> IsDigit(s[k])) && s[d] == ']' && s[d + 1] == ' '
    requires (forall k :: d + 2 <= k < e ==> IsUpper(s[k])) && s[d + 2..e] == name && |name| >= 1
    requires s[e] == ':' && s[e + 1] == ' ' && s[e + 2..] == message && IsMessage(message)
    ensures MatchLine(s) == Some(LineMatch(name, message))
  {
    var i := d + 2;
    var w := e + 2;
    RunEndStops(s, 1, d, IsDigit);
    assert !IsSpace(s[i]) by { assert IsUpper(s[i]); }
    RunEndStops(s, d + 1, i, IsSpace);
    assert NameStart(s) == Some(i);
    RunEndStops(s, i, e, IsUpper);
    assert !IsSpace(s[w]) by { assert s[w] == message[0]; }
    RunEndStops(s, e + 1, w, IsSpace);
  }

  /** A trimmed line that matches with the name of an active role and a
      kept message is read as that role's line. */
  lemma ParseMatched(line: string, roles: seq<Role>, name: string, message: string, r: Role)
    requires line != [] && Trim(line) == line
    requires MatchLine(line) == Some(LineMatch(name, message))
    requires NormalizeRole(name) == Some(r) && r in roles && IsMessage(message)
    ensures ParseLine(line, roles) == Some(Line(r, message))
  {
    TrimFixesTrimmed(message);
  }

  /** A rendered line of an active role reads back as that line. */
  lemma {:induction false} ParseRenderedLine(l: Line, n: nat, roles: seq<Role>)
    requires l.role in roles && IsMessage(l.message)
    ensures ParseLine(RenderLine(l, n), roles) == Some(l)
  {
    var s := RenderLine(l, n);
    RenderedLineMatches(l, n);
    TrimFixesTrimmed(s);
    NormalizeRoleIgnoresCase(RoleName(l.role), RoleName(l.role), l.role);
    ParseMatched(s, roles, RoleName(l.role), l.message, l.role);
  }

  /** Numbered lines of active roles read back as the lines themselves. */
  lemma {:induction false} RenderFromAt(ls: seq<Line>, n: nat, k: nat)
    requires k < |ls|
    ensures RenderFrom(ls, n)[k] == RenderLine(ls[k], n + k)
    decreases k
  {
    if k > 0 {
      RenderFromAt(ls[1..], n + 1, k - 1);
    }
  }

  /** Lines that each read back as the given line are recognised as those lines. */
  lemma ParseEachRendered(xs: seq<string>, ls: seq<Line>, n: nat, roles: seq<Role>)
    requires |xs| == |ls|
    requires forall k :: 0 <= k < |ls| ==> ls[k].role in roles && IsMessage(ls[k].message)
    requires forall k :: 0 <= k < |xs| ==> xs[k] == RenderLine(ls[k], n + k)
    ensures forall k :: 0 <= k < |xs| ==> Parser(roles)(xs[k]) == Some(ls[k])
  {
    forall k | 0 <= k < |xs| ensures Parser(roles)(xs[k]) == Some(ls[k]) {
      var l := ls[k];
      var m := n + k;
      ParseRenderedLine(l, m, roles);
      assert ParseLine(RenderLine(l, m), roles) == Some(l);
      assert xs[k] == RenderLine(l, m);
      assert ParseLine(xs[k], roles) == Some(l);
      assert Parser(roles)(xs[k]) == ParseLine(xs[k], roles);
    }
  }

  lemma ParseRenderedLines(ls: seq<Line>, n: nat, roles: seq<Role>)
    requires forall k :: 0 <= k < |ls| ==> ls[k].role in roles && IsMessage(ls[k].message)
    ensures Recognised(RenderFrom(ls, n), Parser(roles)) == ls
  {
    var xs := RenderFrom(ls, n);
    forall k | 0 <= k < |xs| ensures xs[k] == RenderLine(ls[k], n + k) {
      RenderFromAt(ls, n, k);
    }
    ParseEachRendered(xs, ls, n, roles);
    RecognisedPointwise(xs, Parser(roles), ls);
  }

  /** No numbered line holds a newline. */
  lemma {:induction false} RenderedLinesOneLine(ls: seq<Line>, n: nat)
    requires forall k :: 0 <= k < |ls| ==> IsMessage(ls[k].message)
    ensures forall k :: 0 <= k < |ls| ==> '\n' !in RenderFrom(ls, n)[k]
    decreases |ls|
  {
    if ls != [] {
      var head := RenderLine(ls[0], n);
      var tail := RenderFrom(ls[1..], n + 1);
      assert RenderFrom(ls, n) == [head] + tail;
      RenderedLineOneLine(ls[0], n);
      RenderedLinesOneLine(ls[1..], n + 1);
    }
  }

  /** Reading a rendered transcript gives back exactly its lines: rendering
      and line parsing are inverse on lines of active roles. */
  lemma MatchedRender(ls: seq<Line>, roles: seq<Role>)
    requires forall k :: 0 <= k < |ls| ==> ls[k].role in roles && IsMessage(ls[k].message)
    ensures Matched(Render(ls), roles) == ls
  {
    if ls == [] {
      assert Render(ls) == [];
      MatchedEmpty(roles);
    } else {
      var xs := RenderFrom(ls, 1);
      ParseRenderedLines(ls, 1, roles);
      RenderedLinesOneLine(ls, 1);
      MatchedJoined(xs, roles);
    }
  }

  /** Reading single-line pieces joined by blank lines recognises what the
      pieces themselves hold. */
  lemma MatchedJoined(xs: seq<string>, roles: seq<Role>)
    requires |xs| >= 1
    requires forall k :: 0 <= k < |xs| ==> '\n' !in xs[k]
    ensures Matched(Join(xs, "\n\n"), roles) == Recognised(xs, Parser(roles))
  {
    SplitBlankJoin(xs);
    assert Parser(roles)("") == None;
    RecognisedSpaced(xs, Parser(roles));
  }

  /** The empty reply holds no line. */
  lemma MatchedEmpty(roles: seq<Role>)
    ensures Matched([], roles) == []
  {
    var blank: seq<string> := [[]];
    assert Split([], '\n') == blank;
    assert Recognised(blank, Parser(roles)) == [] by { assert blank[..0] == []; }
  }

  // ---------------------------------------------------------------------
  // The normaliser

  /** The lines the normaliser keeps, in output order. */
  function Kept(text: string, roles: seq<Role>, targets: map<Role, nat>): seq<Line>
    requires |roles| >= 1
  {
    Reorder(Select(Matched(text, roles), targets), roles[0])
  }

  /** The normalised reply: the kept lines rendered, or the reply unchanged
      for a single persona or when no line is kept. */
  function Normalize(text: string, roles: seq<Role>, targets: map<Role, nat>): string {
    if |roles| <= 1 then text
    else
      var kept := Kept(text, roles, targets);
      if kept == [] then text else Render(kept)
  }

  /** A count of zero for every role. */
  function NoCounts(): (m: map<Role, nat>)
    ensures forall r :: r in m && m[r] == 0
  {
    RolesComplete();
    map r | r in AllRoles :: 0
  }

  /** The first pass: the persona lines of active roles, in order. */
  method ReadPersonaLines(text: string, roles: seq<Role>) returns (matched: seq<Line>)
    ensures matched == Matched(text, roles)
  {
    var lines := Split(text, '\n');
    matched := [];
    var k := 0;
    while k < |lines|
      invariant 0 <= k <= |lines|
      invariant matched == Recognised(lines[..k], Parser(roles))
    {
      var parsed := ParseLine(lines[k], roles);
      RecognisedStep(lines, Parser(roles), k);
      assert Parser(roles)(lines[k]) == parsed;
      if parsed.Some? {
        matched := matched + [parsed.value];
      }
      k := k + 1;
    }
    assert lines[..|lines|] == lines;
  }

  /** The second pass: each line is kept while its role is below its target. */
  method KeepWithinTargets(matched: seq<Line>, targets: map<Role, nat>) returns (selected: seq<Line>)
    ensures selected == Select(matched, targets)
  {
    var counts := NoCounts();
    selected := [];
    var k := 0;
    while k < |matched|
      invariant 0 <= k <= |matched|
      invariant selected == Select(matched[..k], targets)
      invariant forall r :: r in counts && counts[r] == RoleCount(selected, r)
    {
      var line := matched[k];
      var quota := Allocation.At(targets, line.role);
      SelectStep(matched, k, targets);
      if quota > 0 && counts[line.role] < quota {
        CountStep(selected, line, counts);
        selected := selected + [line];
        counts := counts[line.role := counts[line.role] + 1];
      }
      k := k + 1;
    }
    assert matched[..|matched|] == matched;
  }

  lemma SelectStep(ls: seq<Line>, k: nat, targets: map<Role, nat>)
    requires k < |ls|
    ensures Select(ls[..k + 1], targets) ==
            var kept := Select(ls[..k], targets);
            if RoleCount(kept, ls[k].role) < Allocation.At(targets, ls[k].role) then kept + [ls[k]] else kept
  {
    assert ls[..k + 1][..k] == ls[..k];
  }

  lemma CountStep(ls: seq<Line>, l: Line, counts: map<Role, nat>)
    requires forall r :: r in counts && counts[r] == RoleCount(ls, r)
    ensures var c := counts[l.role := counts[l.role] + 1];
      forall r :: r in c && c[r] == RoleCount(ls + [l], r)
  {
    assert (ls + [l])[..|ls|] == ls;
  }

  /** `findIndex` for the lead's first line, which is spliced out and put
      in front when it is not there already. */
  method FirstLeadToFront(selected: seq<Line>, lead: Role) returns (moved: seq<Line>)
    ensures moved == LeadToFront(selected, lead)
  {
    var i := 0;
    while i < |selected| && selected[i].role != lead
      invariant 0 <= i <= |selected|
      invariant forall t :: 0 <= t < i ==> selected[t].role != lead
    {
      i := i + 1;
    }
    var firstLeadIndex := if i < |selected| then i else -1;
    FindLeadUnique(selected, lead, firstLeadIndex);
    moved := selected;
    if firstLeadIndex > 0 {
      var leadLine := selected[firstLeadIndex];
      moved := [leadLine] + (selected[..firstLeadIndex] + selected[firstLeadIndex + 1..]);
    }
  }

  /** A backward scan for the lead's last line, which is spliced out and
      pushed to the end when it is not there already. */
  method LastLeadToBack(selected: seq<Line>, lead: Role) returns (moved: seq<Line>)
    ensures moved == LeadToBack(selected, lead)
  {
    var j := |selected| - 1;
    while j >= 0 && selected[j].role != lead
      invariant -1 <= j < |selected|
      invariant forall t :: j < t < |selected| ==> selected[t].role != lead
      decreases j + 1
    {
      j := j - 1;
    }
    var lastLeadIndex := j;
    LastLeadUnique(selected, lead, lastLeadIndex);
    moved := selected;
    if lastLeadIndex >= 0 && lastLeadIndex < |selected| - 1 {
      var leadLine := selected[lastLeadIndex];
      moved := (selected[..lastLeadIndex] + selected[lastLeadIndex + 1..]) + [leadLine];
    }
  }

  /** The numbering: "[n] ROLE: message" with n counted from 1. */
  method NumberLines(selected: seq<Line>) returns (numbered: seq<string>)
    ensures numbered == RenderFrom(selected, 1)
  {
    numbered := [];
    var k := 0;
    while k < |selected|
      invariant 0 <= k <= |selected|
      invariant numbered == RenderFrom(selected, 1)[..k]
    {
      var item := "[" + NatToString(k + 1) + "] " + RoleName(selected[k].role) + ": " + selected[k].message;
      RenderFromAt(selected, 1, k);
      assert item == RenderFrom(selected, 1)[k];
      assert RenderFrom(selected, 1)[..k + 1] == RenderFrom(selected, 1)[..k] + [item];
      numbered := numbered + [item];
      k := k + 1;
    }
    assert RenderFrom(selected, 1)[..k] == RenderFrom(selected, 1);
  }

  /** The normaliser as the plugin runs it. */
  method NormalizeThreadOutput(text: string, roles: seq<Role>, targets: map<Role, nat>) returns (out: string)
    ensures out == Normalize(text, roles, targets)
  {
    if |roles| <= 1 {
      return text;
    }
    var matched := ReadPersonaLines(text, roles);
    if matched == [] {
      assert Kept(text, roles, targets) == Reorder([], roles[0]) == [];
      return text;
    }
    var selected := KeepWithinTargets(matched, targets);
    ReorderKeepsLines(selected, roles[0], roles[0]);
    assert Kept(text, roles, targets) == Reorder(selected, roles[0]);
    if selected == [] {
      return text;
    }
    var front := FirstLeadToFront(selected, roles[0]);
    var moved := LastLeadToBack(front, roles[0]);
    var numbered := NumberLines(moved);
    out := Join(numbered, "\n\n");
  }

  /** Every line read from a reply belongs to an active role and holds a
      kept message. */
  lemma MatchedLines(text: string, roles: seq<Role>)
    ensures forall l :: l in Matched(text, roles) ==> l.role in roles && IsMessage(l.message)
  {
    forall l | l in Matched(text, roles) ensures l.role in roles && IsMessage(l.message) {
      RecognisedMembership(Split(text, '\n'), Parser(roles), l);
    }
  }

  /** The quota pass and the move keep only input lines of roles with a
      positive target. */
  lemma ReorderSelectFrom(m: seq<Line>, targets: map<Role, nat>, lead: Role)
    ensures forall l :: l in Reorder(Select(m, targets), lead) ==> l in m && Allocation.At(targets, l.role) > 0
  {
    var sel := Select(m, targets);
    var k := Reorder(sel, lead);
    SelectFromInput(m, targets);
    ReorderKeepsLines(sel, lead, lead);
    forall l | l in k ensures l in m && Allocation.At(targets, l.role) > 0 {
      assert l in multiset(k);
      SelectedHasQuota(m, targets, l);
    }
  }

  /** A line the quota pass keeps belongs to a role with a positive target. */
  lemma SelectedHasQuota(m: seq<Line>, targets: map<Role, nat>, l: Line)
    requires l in Select(m, targets)
    ensures Allocation.At(targets, l.role) > 0
  {
    var sel := Select(m, targets);
    var t :| 0 <= t < |sel| && sel[t] == l;
    CountedOnce(sel, t);
    SelectCounts(m, targets, l.role);
  }

  /** Every kept line is a line of the reply, of an active role with a
      positive target. */
  lemma KeptFromReply(text: string, roles: seq<Role>, targets: map<Role, nat>)
    requires |roles| >= 1
    ensures forall l :: l in Kept(text, roles, targets) ==>
      l in Matched(text, roles) && l.role in roles && IsMessage(l.message) && Allocation.At(targets, l.role) > 0
  {
    MatchedLines(text, roles);
    ReorderSelectFrom(Matched(text, roles), targets, roles[0]);
  }

  /** Each role keeps as many lines as it has, up to its target; a role
      other than the lead keeps its first lines in their order. */
  lemma KeptQuota(text: string, roles: seq<Role>, targets: map<Role, nat>, r: Role)
    requires |roles| >= 1
    ensures RoleCount(Kept(text, roles, targets), r) ==
            Min(RoleCount(Matched(text, roles), r), Allocation.At(targets, r))
    ensures r != roles[0] ==>
              OfRole(Kept(text, roles, targets), r) ==
              OfRole(Matched(text, roles), r)[..Min(RoleCount(Matched(text, roles), r), Allocation.At(targets, r))]
  {
    var m := Matched(text, roles);
    var sel := Select(m, targets);
    ReorderKeepsLines(sel, roles[0], r);
    SelectCounts(m, targets, r);
    SelectKeepsFirstLines(m, targets, r);
  }

  /** The lines of roles other than the lead keep their relative order. */
  lemma KeptOrder(text: string, roles: seq<Role>, targets: map<Role, nat>)
    requires |roles| >= 1
    ensures Others(Kept(text, roles, targets), roles[0]) ==
            Others(Select(Matched(text, roles), targets), roles[0])
  {
    ReorderKeepsOthers(Select(Matched(text, roles), targets), roles[0]);
  }

  /** A lead with a kept line closes the transcript, and a lead with two or
      more opens it as well. */
  lemma KeptLeadPlaced(text: string, roles: seq<Role>, targets: map<Role, nat>)
    requires |roles| >= 1
    ensures RoleCount(Kept(text, roles, targets), roles[0]) >= 1 ==>
              Kept(text, roles, targets)[|Kept(text, roles, targets)| - 1].role == roles[0]
    ensures RoleCount(Kept(text, roles, targets), roles[0]) >= 2 ==>
              Kept(text, roles, targets)[0].role == roles[0]
  {
    var sel := Select(Matched(text, roles), targets);
    var k := Kept(text, roles, targets);
    assert k == Reorder(sel, roles[0]);
    ReorderKeepsLines(sel, roles[0], roles[0]);
    ReorderPlacesLead(sel, roles[0]);
    assert |k| == |sel|;
  }

  /** The normalised reply, read again, has exactly the kept lines; no role
      speaks more than its target, and roles with target 0 not at all. */
  lemma NormalizeReadsBack(text: string, roles: seq<Role>, targets: map<Role, nat>)
    requires |roles| >= 2 && Kept(text, roles, targets) != []
    ensures Matched(Normalize(text, roles, targets), roles) == Kept(text, roles, targets)
    ensures forall r :: RoleCount(Matched(Normalize(text, roles, targets), roles), r) <= Allocation.At(targets, r)
  {
    assert Normalize(text, roles, targets) == Render(Kept(text, roles, targets));
    KeptReadsBack(text, roles, targets);
    KeptWithinTargets(text, roles, targets);
  }

  /** The rendered kept lines parse back to themselves. */
  lemma KeptReadsBack(text: string, roles: seq<Role>, targets: map<Role, nat>)
    requires |roles| >= 1
    ensures Matched(Render(Kept(text, roles, targets)), roles) == Kept(text, roles, targets)
  {
    var k := Kept(text, roles, targets);
    KeptFromReply(text, roles, targets);
    assert forall i :: 0 <= i < |k| ==> k[i].role in roles && IsMessage(k[i].message);
    MatchedRender(k, roles);
  }

  /** No role keeps more lines than its target. */
  lemma KeptWithinTargets(text: string, roles: seq<Role>, targets: map<Role, nat>)
    requires |roles| >= 1
    ensures forall r :: RoleCount(Kept(text, roles, targets), r) <= Allocation.At(targets, r)
  {
    forall r ensures RoleCount(Kept(text, roles, targets), r) <= Allocation.At(targets, r) {
      KeptQuota(text, roles, targets, r);
    }
  }

  /** Normalising a normalised reply changes nothing. */
  lemma NormalizeIdempotent(text: string, roles: seq<Role>, targets: map<Role, nat>)
    ensures Normalize(Normalize(text, roles, targets), roles, targets) == Normalize(text, roles, targets)
  {
    if |roles| >= 2 && Kept(text, roles, targets) != [] {
      var k := Kept(text, roles, targets);
      var out := Render(k);
      NormalizeReadsBack(text, roles, targets);
      SelectWithinQuota(k, targets);
      ReorderIdempotent(Select(Matched(text, roles), targets), roles[0]);
    }
  }
}
