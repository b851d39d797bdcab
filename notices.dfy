/** The text the plugin adds around a conversation: the format contract
    appended to a user message, the suggestion to fetch live context with
    `/mcp`, and the notice naming the providers that were not checked yet.
    A numbered notice continues the reply's turn numbering. */
module Notices {
  import opened Wrappers
  import opened Text
  import opened Vocabulary
  import Allocation

  // ---------------------------------------------------------------------
  // The format contract

  /** The heading that marks a message as already carrying the contract. */
  const Sentinel := "Assistant format contract:"

  /** The block appended to a user message: an empty line, the heading and
      the rule lines. The rules are fixed wording around the role list, the
      turn plan and the omitted roles; they are passed in as `rules`. */
  function ContractBlock(rules: string): (b: string)
    ensures Contains(b, Sentinel)
  {
    ContainsInfix("\n\n", Sentinel, "\n" + rules);
    "\n\n" + Sentinel + ("\n" + rules)
  }

  /** The contract is appended unless the message already holds the heading. */
  function EnforceUserContract(text: string, rules: string): (r: string)
    ensures Contains(r, Sentinel)
    ensures Contains(text, Sentinel) ==> r == text
    ensures !Contains(text, Sentinel) ==> r == text + ContractBlock(rules)
  {
    if Contains(text, Sentinel) then text
    else
      var b := ContractBlock(rules);
      var i :| 0 <= i <= |b| && OccursAt(b, i, Sentinel);
      assert (text + b)[|text| + i..|text| + i + |Sentinel|] == b[i..i + |Sentinel|];
      assert OccursAt(text + b, |text| + i, Sentinel);
      text + b
  }

  /** A message is given the contract at most once, whatever the rules of a
      later pass. */
  lemma EnforceIdempotent(text: string, rules: string, later: string)
    ensures EnforceUserContract(EnforceUserContract(text, rules), later) == EnforceUserContract(text, rules)
    ensures |EnforceUserContract(text, rules)| >= |text|
  {
  }

  /** The entries "ROLE n" of the weighted plan: the roles with a positive
      target, in list order. */
  function PlanEntries(roles: seq<Role>, targets: map<Role, nat>): (e: seq<string>)
    ensures |e| <= |roles|
  {
    if roles == [] then []
    else
      var r := roles[|roles| - 1];
      var t := Allocation.At(targets, r);
      PlanEntries(roles[..|roles| - 1], targets) + (if t > 0 then [RoleName(r) + " " + NatToString(t)] else [])
  }

  /** The weighted plan as the contract and the system instruction show it. */
  function TurnPlan(roles: seq<Role>, targets: map<Role, nat>): string {
    Join(PlanEntries(roles, targets), ", ")
  }

  /** The listed roles with a target of 0, in list order. */
  function OmittedRoles(roles: seq<Role>, targets: map<Role, nat>): (o: seq<Role>)
    ensures |o| <= |roles|
  {
    if roles == [] then []
    else
      var r := roles[|roles| - 1];
      OmittedRoles(roles[..|roles| - 1], targets) + (if Allocation.At(targets, r) == 0 then [r] else [])
  }

  /** Every listed role is either planned or omitted, never both: the plan
      and the omitted roles together account for the whole list, and the
      omitted roles are exactly the listed ones with target 0. */
  lemma {:induction false} PlanAndOmittedPartition(roles: seq<Role>, targets: map<Role, nat>)
    ensures |PlanEntries(roles, targets)| + |OmittedRoles(roles, targets)| == |roles|
    ensures forall r :: r in OmittedRoles(roles, targets) <==> r in roles && Allocation.At(targets, r) == 0
  {
    if roles != [] {
      var init := roles[..|roles| - 1];
      PlanAndOmittedPartition(init, targets);
      assert roles == init + [roles[|roles| - 1]];
    }
  }

  // ---------------------------------------------------------------------
  // Mentions of /mcp

  /** /\/mcp\b/i matches at `i`: a slash, the letters m, c, p in either case,
      and then the end of the text or a character outside `\w`. */
  predicate McpAt(s: string, i: nat) {
    i + 4 <= |s| && s[i] == '/' && Lower(s[i + 1..i + 4]) == "mcp" &&
    (i + 4 == |s| || !IsWordChar(s[i + 4]))
  }

  predicate McpMentioned(s: string) {
    exists i | 0 <= i < |s| :: McpAt(s, i)
  }

  /** "/mcp" followed by the end or by a non-word character is a mention. */
  lemma McpBetween(x: string, y: string)
    requires y == [] || !IsWordChar(y[0])
    ensures McpMentioned(x + "/mcp" + y)
  {
    var s := x + "/mcp" + y;
    assert s[|x|..|x| + 4] == "/mcp";
    assert s[|x| + 1..|x| + 4] == "mcp";
    assert |x| + 4 < |s| ==> s[|x| + 4] == y[0];
    assert McpAt(s, |x|);
  }

  // ---------------------------------------------------------------------
  // Turn numbers already in a reply

  /** A match of /\[(\d+)\]\s+[A-Z]+:/: the number in brackets and the length
      of the match. */
  datatype Turn = Turn(number: nat, end: nat)

  /** The match of /\[(\d+)\]\s+[A-Z]+:/ at the start of `t`, if any. The
      runs of digits, white space and capitals are disjoint classes, so the
      greedy match is the only one. */
  function MatchTurn(t: string): (m: Option<Turn>)
    ensures m.Some? ==> |t| > 0 && t[0] == '[' && 0 < m.value.end <= |t|
  {
    if |t| > 0 && t[0] == '[' then
      var d := RunEnd(t, 1, IsDigit);
      if d > 1 && d < |t| && t[d] == ']' then
        var w := RunEnd(t, d + 1, IsSpace);
        var u := RunEnd(t, w, IsUpper);
        if w > d + 1 && u > w && u < |t| && t[u] == ':' then
          Some(Turn(NumeralValue(t[1..d]), u + 1))
        else None
      else None
    else None
  }

  /** The match that starts at index `i` of `s`. */
  function TurnAt(s: string, i: nat): (t: Option<Turn>)
    requires i <= |s|
    ensures t.Some? ==> i < |s| && s[i] == '[' && i + t.value.end <= |s|
  {
    MatchTurn(s[i..])
  }

  /** A match holds no `[` after its first character. */
  lemma MatchHasOneBracket(t: string)
    requires MatchTurn(t).Some?
    ensures forall k :: 0 < k < MatchTurn(t).value.end ==> t[k] != '['
  {
    var d := RunEnd(t, 1, IsDigit);
    var w := RunEnd(t, d + 1, IsSpace);
    var u := RunEnd(t, w, IsUpper);
    forall k | 0 < k < MatchTurn(t).value.end ensures t[k] != '[' {
      if k < d { assert IsDigit(t[k]); }
      else if d < k < w { assert IsSpace(t[k]); }
      else if w <= k < u { assert IsUpper(t[k]); }
    }
  }

  /** A match of `s` at `i` holds no `[` after its first character. */
  lemma TurnHasOneBracket(s: string, i: nat)
    requires i <= |s| && TurnAt(s, i).Some?
    ensures forall k :: i < k < i + TurnAt(s, i).value.end ==> s[k] != '['
  {
    var t := s[i..];
    MatchHasOneBracket(t);
    forall k | i < k < i + TurnAt(s, i).value.end ensures s[k] != '[' {
      assert s[k] == t[k - i];
    }
  }

  function Max(a: nat, b: nat): nat { if a >= b then a else b }

  function NumberOf(t: Option<Turn>): nat {
    if t.Some? then t.value.number else 0
  }

  /** The largest turn number among the matches that start at `i` or later. */
  function MaxTurnFrom(s: string, i: nat): nat
    requires i <= |s|
    decreases |s| - i
  {
    if i == |s| then 0 else Max(NumberOf(TurnAt(s, i)), MaxTurnFrom(s, i + 1))
  }

  /** The largest turn number of the reply, 0 when there is none. */
  function MaxTurn(s: string): nat {
    MaxTurnFrom(s, 0)
  }

  /** Every turn number is at most the maximum. */
  lemma {:induction false} MaxTurnBounds(s: string, i: nat, j: nat)
    requires i <= j < |s|
    ensures NumberOf(TurnAt(s, j)) <= MaxTurnFrom(s, i)
    decreases j - i
  {
    if i < j {
      MaxTurnBounds(s, i + 1, j);
    }
  }

  /** A positive maximum is the number of some match. */
  lemma {:induction false} MaxTurnAttained(s: string, i: nat)
    requires i <= |s| && MaxTurnFrom(s, i) > 0
    ensures exists j :: i <= j < |s| && TurnAt(s, j).Some? && TurnAt(s, j).value.number == MaxTurnFrom(s, i)
    decreases |s| - i
  {
    if NumberOf(TurnAt(s, i)) < MaxTurnFrom(s, i) {
      MaxTurnAttained(s, i + 1);
    }
  }

  /** Positions without `[` start no match. */
  lemma {:induction false} NoBracketNoTurn(s: string, i: nat, e: nat)
    requires i <= e <= |s|
    requires forall k :: i <= k < e ==> s[k] != '['
    ensures MaxTurnFrom(s, i) == MaxTurnFrom(s, e)
    decreases e - i
  {
    if i < e {
      NoBracketNoTurn(s, i + 1, e);
    }
  }

  /** The scan of `matchAll`: after each match the search resumes past it.
      Since a match holds no `[` after its start, the skipped positions start
      no match, and the scan sees every match. */
  method MaxTurnNumber(text: string) returns (maxTurn: nat)
    ensures maxTurn == MaxTurn(text)
  {
    maxTurn := 0;
    var i := 0;
    while i < |text|
      invariant 0 <= i <= |text|
      invariant Max(maxTurn, MaxTurnFrom(text, i)) == MaxTurn(text)
      decreases |text| - i
    {
      var t := TurnAt(text, i);
      if t.Some? {
        if t.value.number > maxTurn {
          maxTurn := t.value.number;
        }
        TurnHasOneBracket(text, i);
        NoBracketNoTurn(text, i + 1, i + t.value.end);
        i := i + t.value.end;
      } else {
        i := i + 1;
      }
    }
  }

  /** The number a notice gets: one past the largest turn, or 1. */
  function NextTurn(text: string): nat {
    var m := MaxTurn(text);
    if m > 0 then m + 1 else 1
  }

  /** The next turn is above every turn of the reply. */
  lemma NextTurnAbove(text: string, j: nat)
    requires j < |text| && TurnAt(text, j).Some?
    ensures TurnAt(text, j).value.number < NextTurn(text)
    ensures NextTurn(text) == MaxTurn(text) + 1
  {
    MaxTurnBounds(text, 0, j);
  }

  // ---------------------------------------------------------------------
  // Turn numbers after appending a numbered line

  /** A match in the appended part is the same match there. */
  lemma {:induction false} MaxTurnShift(a: string, b: string, j: nat)
    requires j <= |b|
    ensures MaxTurnFrom(a + b, |a| + j) == MaxTurnFrom(b, j)
    decreases |b| - j
  {
    if j < |b| {
      assert (a + b)[|a| + j..] == b[j..];
      MaxTurnShift(a, b, j + 1);
    }
  }

  lemma {:induction false} RunEndPrefix(a: string, b: string, i: nat, p: char -> bool)
    requires i <= |a|
    requires RunEnd(a, i, p) < |a| || b == [] || !p(b[0])
    ensures RunEnd(a + b, i, p) == RunEnd(a, i, p)
    decreases |a| - i
  {
    assert i < |a| ==> (a + b)[i] == a[i];
    if i < |a| && p(a[i]) {
      RunEndPrefix(a, b, i + 1, p);
    }
  }

  /** The two runs of a match that may reach the end of `t`, the digits and
      the capitals, stop before a line break; so does the white space run,
      which a `[` then stops. */
  lemma MatchBeforeBreak(t: string, c: string)
    requires |t| >= 1 && |c| >= 1 && c[0] == '['
    ensures NumberOf(MatchTurn(t + ("\n\n" + c))) == NumberOf(MatchTurn(t))
  {
    var b := "\n\n" + c;
    var s := t + b;
    assert s[0] == t[0];
    if t[0] == '[' {
      RunEndPrefix(t, b, 1, IsDigit);
      var d := RunEnd(t, 1, IsDigit);
      assert RunEnd(s, 1, IsDigit) == d;
      if d < |t| {
        assert s[d] == t[d];
        if d > 1 && t[d] == ']' {
          assert s[1..d] == t[1..d];
          MatchSpaceBeforeBreak(t, c, d + 1);
        } else {
          assert MatchTurn(s) == None && MatchTurn(t) == None;
        }
      } else {
        assert s[d] == '\n';
        assert MatchTurn(s) == None && MatchTurn(t) == None;
      }
    }
  }

  /** The tail of a match after `]` at index `e - 1`, before a break. */
  lemma MatchSpaceBeforeBreak(t: string, c: string, e: nat)
    requires 1 <= e <= |t| && |c| >= 1 && c[0] == '['
    ensures var s := t + ("\n\n" + c);
      var w := RunEnd(t, e, IsSpace);
      var u := RunEnd(t, w, IsUpper);
      var w' := RunEnd(s, e, IsSpace);
      var u' := RunEnd(s, w', IsUpper);
      (w > e && u > w && u < |t| && t[u] == ':') <==> (w' > e && u' > w' && u' < |s| && s[u'] == ':')
    ensures var s := t + ("\n\n" + c);
      var w := RunEnd(t, e, IsSpace);
      var u := RunEnd(t, w, IsUpper);
      w > e && u > w && u < |t| && t[u] == ':' ==> RunEnd(s, e, IsSpace) == w && RunEnd(s, w, IsUpper) == u
  {
    var b := "\n\n" + c;
    var s := t + b;
    var w := RunEnd(t, e, IsSpace);
    if w < |t| {
      RunEndPrefix(t, b, e, IsSpace);
      RunEndPrefix(t, b, w, IsUpper);
      var u := RunEnd(t, w, IsUpper);
      if u < |t| { assert s[u] == t[u]; }
    } else {
      forall k | e <= k < |t| + 2 ensures IsSpace(s[k]) {
        if k < |t| { assert s[k] == t[k]; }
      }
      RunEndStops(s, e, |t| + 2, IsSpace);
      assert s[|t| + 2] == '[';
      RunEndStops(s, |t| + 2, |t| + 2, IsUpper);
    }
  }

  lemma {:induction false} MaxTurnBeforeBreak(a: string, c: string, i: nat)
    requires i <= |a| && |c| >= 1 && c[0] == '['
    ensures MaxTurnFrom(a + ("\n\n" + c), i) == Max(MaxTurnFrom(a, i), MaxTurnFrom("\n\n" + c, 0))
    decreases |a| - i
  {
    if i == |a| {
      MaxTurnShift(a, "\n\n" + c, 0);
    } else {
      assert (a + ("\n\n" + c))[i..] == a[i..] + ("\n\n" + c);
      MatchBeforeBreak(a[i..], c);
      MaxTurnBeforeBreak(a, c, i + 1);
    }
  }

  /** A text shaped "[digits]" + white space + capitals + ":" starts with
      the match of those digits. */
  lemma MatchShapedTurn(t: string, d: nat, u: nat)
    requires 1 < d && d + 2 < u < |t|
    requires t[0] == '[' && (forall k :: 1 <= k < d ==> IsDigit(t[k])) && t[d] == ']' && t[d + 1] == ' '
    requires (forall k :: d + 2 <= k < u ==> IsUpper(t[k])) && t[u] == ':'
    ensures MatchTurn(t) == Some(Turn(NumeralValue(t[1..d]), u + 1))
  {
    RunEndStops(t, 1, d, IsDigit);
    assert !IsSpace(t[d + 2]) by { assert IsUpper(t[d + 2]); }
    RunEndStops(t, d + 1, d + 2, IsSpace);
    RunEndStops(t, d + 2, u, IsUpper);
  }

  /** The line "[n] NAME: message" starts with turn n and holds no other
      `[` when the message holds none. */
  lemma LineTurn(D: string, name: string, message: string)
    requires |D| >= 1 && AllDigits(D)
    requires |name| >= 1 && forall k :: 0 <= k < |name| ==> IsUpper(name[k])
    requires '[' !in message
    ensures var t := "[" + D + "] " + name + ": " + message;
      NumberOf(MatchTurn(t)) == NumeralValue(D) && forall k :: 0 < k < |t| ==> t[k] != '['
  {
    var pre := "[" + D + "] ";
    var t := pre + name + ": " + message;
    var d := 1 + |D|;
    var u := d + 2 + |name|;
    assert |pre| == d + 2;
    assert pre[1..d] == D;
    forall k | 1 <= k < d ensures IsDigit(t[k]) { assert t[k] == pre[k] == D[k - 1]; }
    assert t[d] == pre[d] == ']';
    assert t[d + 1] == pre[d + 1] == ' ';
    forall k | d + 2 <= k < u ensures IsUpper(t[k]) { assert t[k] == name[k - d - 2]; }
    assert t[u] == ':';
    assert t[1..d] == D;
    MatchShapedTurn(t, d, u);
    forall k | 0 < k < |t| ensures t[k] != '[' {
      if k < d { assert IsDigit(t[k]); }
      else if d + 2 <= k < u { assert IsUpper(t[k]); }
      else if k > u + 1 { assert t[k] == message[k - u - 2]; }
    }
  }

  /** A text that starts with turn n and holds no other `[` has largest
      turn n, also after two newlines. */
  lemma SingleTurn(t: string, n: nat)
    requires |t| >= 1 && NumberOf(MatchTurn(t)) == n
    requires forall k :: 0 < k < |t| ==> t[k] != '['
    ensures MaxTurnFrom("\n\n" + t, 0) == n
  {
    assert t[0..] == t;
    NoBracketNoTurn(t, 1, |t|);
    var s := "\n\n" + t;
    MaxTurnShift("\n\n", t, 0);
    NoBracketNoTurn(s, 0, 2);
  }

  /** The line "[n] NAME: message" after two newlines has the single turn n,
      when the message holds no `[`. */
  lemma NumberedLineTurn(n: nat, name: string, message: string)
    requires |name| >= 1 && forall k :: 0 <= k < |name| ==> IsUpper(name[k])
    requires '[' !in message
    ensures MaxTurnFrom("\n\n" + ("[" + NatToString(n) + "] " + name + ": " + message), 0) == n
  {
    var D := NatToString(n);
    LineTurn(D, name, message);
    NumeralRoundTrip(n);
    SingleTurn("[" + D + "] " + name + ": " + message, n);
  }

  /** A numbered notice: the next turn, spoken by the lead. */
  function NumberedLine(text: string, lead: Role, message: string): string {
    "[" + NatToString(NextTurn(text)) + "] " + RoleName(lead) + ": " + message
  }

  /** Appending a numbered notice makes it the reply's last turn: the
      reply's largest turn number becomes the notice's. */
  lemma NumberedLineContinues(text: string, lead: Role, message: string)
    requires '[' !in message
    ensures MaxTurn(text + "\n\n" + NumberedLine(text, lead, message)) == NextTurn(text)
  {
    var line := NumberedLine(text, lead, message);
    RoleNameShape(lead);
    NumberedLineTurn(NextTurn(text), RoleName(lead), message);
    assert text + "\n\n" + line == text + ("\n\n" + line);
    MaxTurnBeforeBreak(text, line, 0);
  }

  // ---------------------------------------------------------------------
  // The /mcp suggestion

  // Written in two pieces: the verifier checks the characters of a literal
  // only up to about forty of them.
  const SuggestionOpening := "If confidence is low or the data may be "
  const SuggestionHead := SuggestionOpening + "stale, we can pull live context with `"
  const SuggestionTail := "` before finalizing."

  /** The sentence suggesting live context. */
  function Suggestion(): string {
    SuggestionHead + "/mcp" + SuggestionTail
  }

  /** The suggestion mentions /mcp. */
  lemma SuggestionMentionsMcp()
    ensures McpMentioned(Suggestion())
  {
    McpBetween(SuggestionHead, SuggestionTail);
  }

  /** The suggestion starts no turn. */
  lemma SuggestionHasNoBracket()
    ensures '[' !in Suggestion()
  {
    OpeningHasNoBracket();
    assert '[' !in SuggestionHead[|SuggestionOpening|..];
  }

  lemma OpeningHasNoBracket()
    ensures '[' !in SuggestionOpening
  {
  }

  /** A mention survives text put in front of it. */
  lemma McpAfter(x: string, y: string)
    requires McpMentioned(y)
    ensures McpMentioned(x + y)
  {
    var i :| 0 <= i < |y| && McpAt(y, i);
    var s := x + y;
    assert s[|x| + i + 1..|x| + i + 4] == y[i + 1..i + 4];
    assert s[|x| + i] == y[i];
    assert |x| + i + 4 < |s| ==> s[|x| + i + 4] == y[i + 4];
    assert McpAt(s, |x| + i);
  }

  /** The reply with the suggestion: unchanged when it already mentions
      /mcp, otherwise the suggestion after an empty line, as the lead's next
      turn when the reply is numbered. */
  function McpSuggested(text: string, lead: Role, numbered: bool): string {
    if McpMentioned(text) then text
    else if !numbered then text + "\n\n" + Suggestion()
    else text + "\n\n" + NumberedLine(text, lead, Suggestion())
  }

  method AppendMcpSuggestion(text: string, lead: Role, numbered: bool) returns (out: string)
    ensures out == McpSuggested(text, lead, numbered)
  {
    if McpMentioned(text) {
      return text;
    }
    if !numbered {
      return text + "\n\n" + Suggestion();
    }
    var maxTurn := MaxTurnNumber(text);
    var nextTurn := if maxTurn > 0 then maxTurn + 1 else 1;
    var line := "[" + NatToString(nextTurn) + "] " + RoleName(lead) + ": " + Suggestion();
    out := text + "\n\n" + line;
  }

  /** The suggested reply mentions /mcp, so suggesting again changes nothing. */
  lemma McpSuggestedIdempotent(text: string, lead: Role, numbered: bool)
    ensures McpMentioned(McpSuggested(text, lead, numbered))
    ensures McpSuggested(McpSuggested(text, lead, numbered), lead, numbered) == McpSuggested(text, lead, numbered)
  {
    if !McpMentioned(text) {
      SuggestionMentionsMcp();
      if numbered {
        var head := "[" + NatToString(NextTurn(text)) + "] " + RoleName(lead) + ": ";
        McpAfter(head, Suggestion());
        McpAfter(text + "\n\n", head + Suggestion());
      } else {
        McpAfter(text + "\n\n", Suggestion());
      }
    }
  }

  /** A numbered suggestion is the reply's next turn. */
  lemma McpSuggestedTurn(text: string, lead: Role)
    requires !McpMentioned(text)
    ensures MaxTurn(McpSuggested(text, lead, true)) == MaxTurn(text) + 1
  {
    SuggestionHasNoBracket();
    NumberedLineContinues(text, lead, Suggestion());
  }

  // ---------------------------------------------------------------------
  // The missing-provider notice

  function ProviderKeys(ps: seq<Provider>): (keys: seq<string>)
    ensures |keys| == |ps|
    ensures forall k :: 0 <= k < |ps| ==> keys[k] == ProviderKey(ps[k])
  {
    if ps == [] then [] else ProviderKeys(ps[..|ps| - 1]) + [ProviderKey(ps[|ps| - 1])]
  }

  /** The sentence naming the providers still to check. */
  function MissingNotice(missing: seq<Provider>): string {
    NoticeOpening + Join(ProviderKeys(missing), ", ") + NoticeClosing
  }

  const NoticeOpening := "Need at least one MCP check for: "
  const NoticeClosing := " before final recommendation."

  /** No provider key holds a `[`. */
  lemma KeysHaveNoBracket(ps: seq<Provider>)
    ensures forall k :: 0 <= k < |ps| ==> '[' !in ProviderKeys(ps)[k]
  {
    forall k | 0 <= k < |ps| ensures '[' !in ProviderKey(ps[k]) {
      match ps[k]
      case Sentry =>
      case GitHub =>
      case Shortcut =>
      case Nuxt =>
    }
  }

  /** The notice starts no turn. */
  lemma MissingNoticeHasNoBracket(missing: seq<Provider>)
    ensures '[' !in MissingNotice(missing)
  {
    KeysHaveNoBracket(missing);
    JoinAvoids(ProviderKeys(missing), ", ", '[');
    NoticeWordsHaveNoBracket();
  }

  lemma NoticeWordsHaveNoBracket()
    ensures '[' !in NoticeOpening && '[' !in NoticeClosing
  {
  }

  /** The reply with the notice: unchanged for no missing provider, else the
      notice after an empty line, as the lead's next turn when numbered. */
  function ProviderNoticed(text: string, lead: Role, numbered: bool, missing: seq<Provider>): string {
    if missing == [] then text
    else if !numbered then text + "\n\n" + MissingNotice(missing)
    else text + "\n\n" + NumberedLine(text, lead, MissingNotice(missing))
  }

  method AppendMissingProviderNotice(text: string, lead: Role, numbered: bool, missing: seq<Provider>)
    returns (out: string)
    ensures out == ProviderNoticed(text, lead, numbered, missing)
  {
    if |missing| == 0 {
      return text;
    }
    var notice := MissingNotice(missing);
    if !numbered {
      return text + "\n\n" + notice;
    }
    var maxTurn := MaxTurnNumber(text);
    var nextTurn := if maxTurn > 0 then maxTurn + 1 else 1;
    var line := "[" + NatToString(nextTurn) + "] " + RoleName(lead) + ": " + notice;
    out := text + "\n\n" + line;
  }

  /** A numbered notice is the reply's next turn; there is no check for an
      earlier notice, so a second one is added after the first, one turn
      later. */
  lemma ProviderNoticedTurn(text: string, lead: Role, missing: seq<Provider>)
    requires missing != []
    ensures MaxTurn(ProviderNoticed(text, lead, true, missing)) == MaxTurn(text) + 1
    ensures var once := ProviderNoticed(text, lead, true, missing);
      MaxTurn(ProviderNoticed(once, lead, true, missing)) == MaxTurn(text) + 2
  {
    MissingNoticeHasNoBracket(missing);
    NumberedLineContinues(text, lead, MissingNotice(missing));
    var once := ProviderNoticed(text, lead, true, missing);
    NumberedLineContinues(once, lead, MissingNotice(missing));
  }
}
