/** The session registry and the hooks that update it: a user message that
    names personas installs a fresh policy for its session, the system
    instruction is added once per session until the next install by a
    message, provider tools pass the gate, and a finished reply is normalised
    and given its notices. */
module Session {
  import opened Wrappers
  import opened Vocabulary
  import opened Seqs
  import opened Gate
  import Classify
  import Allocation
  import Personas
  import Transcript
  import Notices

  /** A part of a message: text, or anything else (files, tool output). */
  datatype Part = TextPart(text: string) | OtherPart

  /** A message as the hooks see it; its parts are changed in place. */
  datatype Message = Message(sessionID: string, isUser: bool, parts: array<Part>)

  /** The fixed wording the plugin writes: the rule lines of the format
      contract and the system instruction, each built from a policy. */
  datatype Prose = Prose(contractRules: Policy -> string, systemInstruction: Policy -> string)

  /** The personas a message asks for and the text of the part that named
      them. */
  datatype Request = Request(roles: seq<Role>, source: string)

  /** The personas a part names, when it is text and names any. */
  function RolesOfPart(part: Part): (r: Option<seq<Role>>)
    ensures r.Some? ==> part.TextPart? && |r.value| >= 1
  {
    if part.TextPart? then Personas.DetectRolesFromText(part.text) else None
  }

  /** The request a part makes, when it names personas. */
  function RequestOf(part: Part): (r: Option<Request>)
    ensures r.Some? ==> part.TextPart? && r.value.source == part.text
    ensures r.Some? ==> |r.value.roles| >= 1
  {
    var roles := RolesOfPart(part);
    if roles.Some? then Some(Request(roles.value, part.text)) else None
  }

  /** The request of the last part that names personas: later parts win
      (`Seqs.LastSomeNone` and `Seqs.LastSomeAt` state this). */
  function LastRequest(parts: seq<Part>): (r: Option<Request>)
    ensures r.Some? ==> |r.value.roles| >= 1
  {
    LastSomeIn(parts, RequestOf);
    LastSome(parts, RequestOf)
  }

  /** A part after its persona marker is removed: only parts that name
      personas are touched. */
  function Stripped(part: Part): Part {
    if RequestOf(part).Some? then TextPart(Personas.StripMarkers(part.text)) else part
  }

  /** A part with the format contract: every text part gets it. */
  function Contracted(part: Part, rules: string): Part {
    if part.TextPart? then TextPart(Notices.EnforceUserContract(part.text, rules)) else part
  }

  /** The first pass over a message: every part that names personas loses
      its marker, and the last one gives the request. */
  method TakeRequest(parts: array<Part>) returns (found: Option<Request>)
    modifies parts
    ensures found == LastRequest(old(parts[..]))
    ensures forall k :: 0 <= k < parts.Length ==> parts[k] == Stripped(old(parts[k]))
  {
    found := None;
    ghost var original := parts[..];
    for i := 0 to parts.Length
      invariant found == LastSome(original[..i], RequestOf)
      invariant forall k :: 0 <= k < i ==> parts[k] == Stripped(original[k])
      invariant forall k :: i <= k < parts.Length ==> parts[k] == original[k]
    {
      LastSomeStep(original, RequestOf, i);
      var request := StripPart(parts, i);
      if request.Some? {
        found := request;
      }
    }
    assert original[..parts.Length] == original;
  }

  /** One step of the first pass: the request part `i` makes, and the part
      without its marker when it makes one. */
  method StripPart(parts: array<Part>, i: nat) returns (request: Option<Request>)
    requires i < parts.Length
    modifies parts
    ensures request == RequestOf(old(parts[i]))
    ensures parts[i] == Stripped(old(parts[i]))
    ensures forall k :: 0 <= k < parts.Length && k != i ==> parts[k] == old(parts[k])
  {
    var part := parts[i];
    request := RequestOf(part);
    if request.Some? {
      parts[i] := TextPart(Personas.StripMarkers(part.text));
    }
  }

  /** The second pass: every text part gets the format contract. */
  method EnforceContract(parts: array<Part>, rules: string)
    modifies parts
    ensures forall k :: 0 <= k < parts.Length ==> parts[k] == Contracted(old(parts[k]), rules)
  {
    for i := 0 to parts.Length
      invariant forall k :: 0 <= k < i ==> parts[k] == Contracted(old(parts[k]), rules)
      invariant forall k :: i <= k < parts.Length ==> parts[k] == old(parts[k])
    {
      if parts[i].TextPart? {
        parts[i] := TextPart(Notices.EnforceUserContract(parts[i].text, rules));
      }
    }
  }

  /** The policy a request installs: its personas, the intent and turn
      targets of its text, the providers it names with their hints, whether
      it asks for live data or a deeper look, and no call made yet. */
  predicate PolicyFor(kw: Keywords, req: Request, p: Policy) {
    p.roles == req.roles &&
    Classify.IntentOf(kw, req.source, p.intent) &&
    Allocation.TargetsFor(req.roles, p.intent, p.targets) &&
    p.mcpProviders == Classify.MentionedProviders(kw, req.source) &&
    p.mcpHints == Classify.McpHints(p.mcpProviders) &&
    p.staleSensitive == kw.staleSensitive(req.source) &&
    p.allowDeepMcp == kw.deepMcp(req.source) &&
    p.mcpCallCount == 0 && p.mcpTouched == map[]
  }

  /** What the two message hooks share: read the request, strip the
      markers, build the policy and give every text part the contract. */
  method Ingest(parts: array<Part>, kw: Keywords, prose: Prose) returns (policy: Option<Policy>)
    modifies parts
    ensures policy.None? <==> LastRequest(old(parts[..])).None?
    ensures policy.None? ==> forall k :: 0 <= k < parts.Length ==> parts[k] == Stripped(old(parts[k]))
    ensures policy.Some? ==>
      PolicyFor(kw, LastRequest(old(parts[..])).value, policy.value) &&
      PolicyOk(policy.value) && |policy.value.roles| >= 1
    ensures policy.Some? ==> forall k :: 0 <= k < parts.Length ==>
      parts[k] == Contracted(Stripped(old(parts[k])), prose.contractRules(policy.value))
  {
    var found := TakeRequest(parts);
    if found.None? {
      return None;
    }
    var roles := found.value.roles;
    var source := found.value.source;
    var intent := Classify.DetectIntent(kw, source);
    var targets := Allocation.BuildTurnTargets(roles, intent);
    var providers := Classify.DetectMcpProviders(kw, source);
    var hints := Classify.McpHints(providers);
    var p := FreshPolicy(roles, targets, intent, providers, hints, kw.staleSensitive(source), kw.deepMcp(source));
    FreshPolicyOk(roles, targets, intent, providers, hints, kw.staleSensitive(source), kw.deepMcp(source));
    EnforceContract(parts, prose.contractRules(p));
    policy := Some(p);
  }

  /** The index of the last user message. */
  function LastUser(messages: seq<Message>): (i: Option<nat>)
    ensures i.Some? ==> i.value < |messages| && messages[i.value].isUser
    ensures i.Some? ==> forall k :: i.value < k < |messages| ==> !messages[k].isUser
    ensures i.None? ==> forall k :: 0 <= k < |messages| ==> !messages[k].isUser
  {
    if messages == [] then None
    else if messages[|messages| - 1].isUser then Some(|messages| - 1)
    else LastUser(messages[..|messages| - 1])
  }

  /** The parts the message transform may change: those of the last user
      message. */
  function LastUserParts(messages: seq<Message>): set<array<Part>> {
    var i := LastUser(messages);
    if i.Some? then {messages[i.value].parts} else {}
  }

  /** The reply after the plugin is done with it: normalised when several
      personas speak, with the notice of the providers not checked yet when
      several were named, and with the suggestion to fetch live data when
      it asks for that and names no provider. */
  function Completed(p: Policy, text: string): string
    requires |p.roles| >= 1
  {
    var numbered := |p.roles| > 1;
    var normalized := if numbered then Transcript.Normalize(text, p.roles, p.targets) else text;
    var missing := MissingProviders(p);
    var noticed :=
      if |p.mcpProviders| > 1 && |missing| > 0 then Notices.ProviderNoticed(normalized, p.roles[0], numbered, missing)
      else normalized;
    if p.staleSensitive && p.mcpProviders == [] then Notices.McpSuggested(noticed, p.roles[0], numbered)
    else noticed
  }

  /** The steps of the `text.complete` hook, each by the operation that
      implements it. */
  method Complete(policy: Policy, text: string) returns (out: string)
    requires |policy.roles| >= 1
    ensures out == Completed(policy, text)
  {
    var numbered := |policy.roles| > 1;
    out := text;
    if numbered {
      out := Transcript.NormalizeThreadOutput(out, policy.roles, policy.targets);
    }
    if |policy.mcpProviders| > 1 {
      var missing := MissingProviders(policy);
      if |missing| > 0 {
        out := Notices.AppendMissingProviderNotice(out, policy.roles[0], numbered, missing);
      }
    }
    if policy.staleSensitive && |policy.mcpProviders| == 0 {
      out := Notices.AppendMcpSuggestion(out, policy.roles[0], numbered);
    }
  }

  /** A reply for live data with no provider named ends up mentioning /mcp. */
  lemma CompletedSuggestsMcp(p: Policy, text: string)
    requires |p.roles| >= 1 && p.staleSensitive && p.mcpProviders == []
    ensures Notices.McpMentioned(Completed(p, text))
  {
    var numbered := |p.roles| > 1;
    var normalized := if numbered then Transcript.Normalize(text, p.roles, p.targets) else text;
    Notices.McpSuggestedIdempotent(normalized, p.roles[0], numbered);
  }

  /** With several personas and providers still to check, the notice is the
      normalised reply's next turn. */
  lemma CompletedNoticeIsNextTurn(p: Policy, text: string)
    requires |p.roles| > 1 && |p.mcpProviders| > 1 && MissingProviders(p) != []
    ensures Notices.MaxTurn(Completed(p, text)) ==
      Notices.MaxTurn(Transcript.Normalize(text, p.roles, p.targets)) + 1
  {
    Notices.ProviderNoticedTurn(Transcript.Normalize(text, p.roles, p.targets), p.roles[0], MissingProviders(p));
  }

  /** When nothing is appended, completing a completed reply changes
      nothing. */
  lemma CompletedStable(p: Policy, text: string)
    requires |p.roles| >= 1
    requires !(p.staleSensitive && p.mcpProviders == [])
    requires |p.mcpProviders| <= 1 || MissingProviders(p) == []
    ensures Completed(p, Completed(p, text)) == Completed(p, text)
  {
    Transcript.NormalizeIdempotent(text, p.roles, p.targets);
  }

  /** The session registry: the personas, the policy and whether the system
      instruction was added, per session id. */
  class SessionStore {
    var sessionRoles: map<string, seq<Role>>
    var policies: map<string, Policy>
    var injected: set<string>

    /** Roles and policies are kept for the same sessions and agree, every
        policy has a persona and meets the policy invariant, and only a
        session with a policy is marked as instructed. */
    predicate Valid()
      reads this
    {
      sessionRoles.Keys == policies.Keys &&
      injected <= policies.Keys &&
      forall s :: s in policies ==>
        sessionRoles[s] == policies[s].roles && |policies[s].roles| >= 1 && PolicyOk(policies[s])
    }

    constructor ()
      ensures Valid()
      ensures sessionRoles == map[] && policies == map[] && injected == {}
    {
      sessionRoles := map[];
      policies := map[];
      injected := {};
    }

    /** The `chat.message` hook: a user message that names personas
        installs a fresh policy for its session and clears the instruction
        mark; one that names none forgets the session. Other sessions are
        untouched. */
    method ChatMessage(sessionID: string, isUser: bool, parts: array<Part>, kw: Keywords, prose: Prose)
      requires Valid()
      modifies this, parts
      ensures Valid()
      ensures !isUser ==> unchanged(this) && unchanged(parts)
      ensures isUser && LastRequest(old(parts[..])).None? ==>
        sessionRoles == old(sessionRoles) - {sessionID} && policies == old(policies) - {sessionID} &&
        injected == old(injected) - {sessionID} &&
        forall k :: 0 <= k < parts.Length ==> parts[k] == Stripped(old(parts[k]))
      ensures isUser && LastRequest(old(parts[..])).Some? ==>
        sessionID in policies && PolicyFor(kw, LastRequest(old(parts[..])).value, policies[sessionID]) &&
        policies == old(policies)[sessionID := policies[sessionID]] &&
        sessionRoles == old(sessionRoles)[sessionID := policies[sessionID].roles] &&
        injected == old(injected) - {sessionID} &&
        forall k :: 0 <= k < parts.Length ==>
          parts[k] == Contracted(Stripped(old(parts[k])), prose.contractRules(policies[sessionID]))
    {
      if !isUser {
        return;
      }
      var policy := Ingest(parts, kw, prose);
      if policy.None? {
        sessionRoles := sessionRoles - {sessionID};
        policies := policies - {sessionID};
        injected := injected - {sessionID};
        return;
      }
      sessionRoles := sessionRoles[sessionID := policy.value.roles];
      policies := policies[sessionID := policy.value];
      injected := injected - {sessionID};
    }

    /** The `messages.transform` hook: the same for the last user message,
        except that installing a policy keeps the instruction mark. */
    method MessagesTransform(messages: seq<Message>, kw: Keywords, prose: Prose)
      requires Valid()
      modifies this, LastUserParts(messages)
      ensures Valid()
      ensures LastUser(messages).None? ==> unchanged(this)
      ensures LastUser(messages).Some? ==>
        var m := messages[LastUser(messages).value];
        var req := LastRequest(old(m.parts[..]));
        (req.None? ==>
          sessionRoles == old(sessionRoles) - {m.sessionID} && policies == old(policies) - {m.sessionID} &&
          injected == old(injected) - {m.sessionID} &&
          forall k :: 0 <= k < m.parts.Length ==> m.parts[k] == Stripped(old(m.parts[k]))) &&
        (req.Some? ==>
          m.sessionID in policies && PolicyFor(kw, req.value, policies[m.sessionID]) &&
          policies == old(policies)[m.sessionID := policies[m.sessionID]] &&
          sessionRoles == old(sessionRoles)[m.sessionID := policies[m.sessionID].roles] &&
          injected == old(injected) &&
          forall k :: 0 <= k < m.parts.Length ==>
            m.parts[k] == Contracted(Stripped(old(m.parts[k])), prose.contractRules(policies[m.sessionID])))
    {
      var last := LastUser(messages);
      if last.None? {
        return;
      }
      var m := messages[last.value];
      var policy := Ingest(m.parts, kw, prose);
      if policy.None? {
        sessionRoles := sessionRoles - {m.sessionID};
        policies := policies - {m.sessionID};
        injected := injected - {m.sessionID};
        return;
      }
      sessionRoles := sessionRoles[m.sessionID := policy.value.roles];
      policies := policies[m.sessionID := policy.value];
    }

    /** The `system.transform` hook: the instruction of the session's policy,
        once per session until a message clears the mark. */
    method SystemTransform(sessionID: string, prose: Prose) returns (pushed: Option<string>)
      requires Valid()
      modifies this
      ensures Valid()
      ensures sessionID == "" || sessionID in old(injected) || sessionID !in old(policies) ==>
        pushed == None && unchanged(this)
      ensures sessionID != "" && sessionID !in old(injected) && sessionID in old(policies) ==>
        pushed == Some(prose.systemInstruction(old(policies)[sessionID])) &&
        injected == old(injected) + {sessionID} &&
        policies == old(policies) && sessionRoles == old(sessionRoles)
    {
      if sessionID == "" || sessionID in injected {
        return None;
      }
      if sessionID !in policies {
        return None;
      }
      pushed := Some(prose.systemInstruction(policies[sessionID]));
      injected := injected + {sessionID};
    }

    /** The `tool.execute.before` hook: tools of no provider and sessions
        without a policy pass; otherwise the gate decides, a refusal changes
        nothing and an admitted call is counted in the session's policy. */
    method ToolExecuteBefore(sessionID: string, tool: string) returns (denied: Option<Denial>)
      requires Valid()
      modifies this
      ensures Valid()
      ensures ProviderFromToolName(tool).None? || sessionID !in old(policies) ==>
        denied == None && unchanged(this)
      ensures ProviderFromToolName(tool).Some? && sessionID in old(policies) ==>
        var d := Admit(old(policies)[sessionID], ProviderFromToolName(tool).value);
        (d.Deny? ==> denied == Some(d.reason) && unchanged(this)) &&
        (d.Allow? ==>
           denied == None && policies == old(policies)[sessionID := d.policy] &&
           sessionRoles == old(sessionRoles) && injected == old(injected))
    {
      var provider := ProviderFromToolName(tool);
      if provider.None? {
        return None;
      }
      if sessionID !in policies {
        return None;
      }
      var policy := policies[sessionID];
      var d := Admit(policy, provider.value);
      if d.Deny? {
        return Some(d.reason);
      }
      AdmitKeepsOk(policy, provider.value);
      policies := policies[sessionID := d.policy];
      denied := None;
    }

    /** The `text.complete` hook: the reply as `Completed` makes it, or
        unchanged for a session without a policy. */
    method TextComplete(sessionID: string, text: string) returns (out: string)
      requires Valid()
      ensures sessionID !in policies ==> out == text
      ensures sessionID in policies ==> out == Completed(policies[sessionID], text)
    {
      if sessionID !in policies {
        return text;
      }
      out := Complete(policies[sessionID], text);
    }
  }
}
