/** The persona resolver: role-name normalisation, `@Name` mention scanning,
    the hidden `<<AGENT_CONVERSATIONS:A,B>>` marker (building, parsing and
    stripping it), and the rule that a marker beats mentions. */
module Personas {
  import opened Wrappers
  import opened Text
  import opened Seqs
  import opened Vocabulary

  /** The alias table: lower-case spellings accepted for each role. */
  const RoleAliases: map<string, Role> := map[
    "cto" := CTO, "dev" := DEV, "developer" := DEV, "po" := PO, "pm" := PM,
    "ceo" := CEO, "marketing" := MARKETING, "research" := RESEARCH]

  /** The role whose canonical name is exactly `s`, if any. */
  function SupportedRoleNamed(s: string): (r: Option<Role>)
    ensures r.Some? ==> RoleName(r.value) == s
    ensures r.None? ==> forall q :: RoleName(q) != s
  {
    if s == "CTO" then Some(CTO)
    else if s == "DEV" then Some(DEV)
    else if s == "PO" then Some(PO)
    else if s == "PM" then Some(PM)
    else if s == "CEO" then Some(CEO)
    else if s == "MARKETING" then Some(MARKETING)
    else if s == "RESEARCH" then Some(RESEARCH)
    else None
  }

  /** The lower-cased canonical name of every role is an alias of that role. */
  lemma AliasOfRoleName(r: Role)
    ensures Lower(RoleName(r)) in RoleAliases && RoleAliases[Lower(RoleName(r))] == r
  {
    match r
    case CTO => assert Lower("CTO") == "cto";
    case DEV => assert Lower("DEV") == "dev";
    case PO => assert Lower("PO") == "po";
    case PM => assert Lower("PM") == "pm";
    case CEO => assert Lower("CEO") == "ceo";
    case MARKETING => assert Lower("MARKETING") == "marketing";
    case RESEARCH => assert Lower("RESEARCH") == "research";
  }

  /** `raw` spells role `r`, ignoring case: its canonical name, or "developer"
      for `DEV`. */
  predicate Spells(raw: string, r: Role) {
    Lower(raw) == Lower(RoleName(r)) || (r == DEV && Lower(raw) == "developer")
  }

  /** Every alias spells the role it maps to. */
  lemma AliasesSpellTheirRoles()
    ensures forall key :: key in RoleAliases ==> Spells(key, RoleAliases[key])
  {
    forall key | key in RoleAliases ensures Spells(key, RoleAliases[key]) {
      AliasOfRoleName(RoleAliases[key]);
      assert Lower(key) == key;
    }
  }

  /** Resolves a raw token to a role: the alias table on the lower-cased
      token first, then the canonical names on the upper-cased token. */
  function NormalizeRole(raw: string): (r: Option<Role>)
    ensures r.Some? ==> Spells(raw, r.value)
    ensures Lower(raw) in RoleAliases ==> r == Some(RoleAliases[Lower(raw)])
  {
    var lowered := Lower(raw);
    if lowered in RoleAliases then
      AliasesSpellTheirRoles();
      assert Lower(lowered) == lowered;
      Some(RoleAliases[lowered])
    else
      var upper := Upper(raw);
      var named := SupportedRoleNamed(upper);
      LowerOfUpper(raw);
      named
  }

  /** A token names role `r` exactly when it spells `r`: normalisation accepts
      every spelling of a role and nothing else. */
  lemma NormalizeRoleSpec(raw: string, r: Role)
    ensures NormalizeRole(raw) == Some(r) <==> Spells(raw, r)
  {
    if Spells(raw, r) {
      AliasOfRoleName(r);
    }
  }

  /** Normalisation ignores case, and every canonical name resolves to its role. */
  lemma {:induction false} NormalizeRoleIgnoresCase(a: string, b: string, r: Role)
    ensures Lower(a) == Lower(b) ==> NormalizeRole(a) == NormalizeRole(b)
    ensures NormalizeRole(RoleName(r)) == Some(r)
    ensures NormalizeRole(Lower(RoleName(r))) == Some(r)
  {
    AliasOfRoleName(r);
    assert Lower(Lower(RoleName(r))) == Lower(RoleName(r));
    if Lower(a) == Lower(b) && Lower(a) !in RoleAliases {
      LowerOfUpper(a);
      LowerOfUpper(b);
      if NormalizeRole(a).Some? {
        AliasOfRoleName(NormalizeRole(a).value);
      }
      if NormalizeRole(b).Some? {
        AliasOfRoleName(NormalizeRole(b).value);
      }
    }
  }

  // ---------------------------------------------------------------------
  // The alias lookup as written: a property read on a plain object literal.

  /** What reading a property of the alias object yields in JavaScript: an
      own entry, a member inherited from `Object.prototype`, or `undefined`. */
  datatype AliasRead = OwnEntry(role: Role) | InheritedMember(key: string) | Undefined

  /** The all-lower-case property names every plain object inherits, each of
      whose values (the `Object` constructor, the prototype) is truthy. */
  const InheritedLowerCaseKeys: set<string> := {"constructor", "__proto__"}

  function ReadAliasAsWritten(key: string): AliasRead {
    if key in RoleAliases then OwnEntry(RoleAliases[key])
    else if key in InheritedLowerCaseKeys then InheritedMember(key)
    else Undefined
  }

  /** The result of the plugin's normaliser: a role, some other truthy value,
      or `null`. */
  datatype NormalizedAsWritten = RoleValue(role: Role) | OtherTruthy(key: string) | NullValue

  /** The normaliser as written: its truthiness test on the property read
      also lets inherited members through. */
  function NormalizeRoleAsWritten(raw: string): (r: NormalizedAsWritten)
    ensures r.RoleValue? ==> NormalizeRole(raw) == Some(r.role)
  {
    match ReadAliasAsWritten(Lower(raw))
    case OwnEntry(role) => RoleValue(role)
    case InheritedMember(key) => OtherTruthy(key)
    case Undefined =>
      var named := SupportedRoleNamed(Upper(raw));
      if named.Some? then RoleValue(named.value) else NullValue
  }

  /** The mention "@Constructor" passes the plugin's role test without naming a
      role: the alias read returns the inherited `Object` constructor. */
  lemma ConstructorMentionAsWritten()
    ensures MentionNames("@Constructor") == ["Constructor"]
    ensures NormalizeRoleAsWritten("Constructor") == OtherTruthy("constructor")
    ensures NormalizeRole("Constructor") == None
  {
    ConstructorMentioned();
    ConstructorLowered();
    assert "constructor" !in RoleAliases by {
      forall key | key in RoleAliases ensures |key| != 11 { }
    }
    assert "constructor" in InheritedLowerCaseKeys;
    assert SupportedRoleNamed(Upper("Constructor")) == None by {
      assert |Upper("Constructor")| == 11;
    }
  }

  lemma ConstructorLowered()
    ensures Lower("Constructor") == "constructor"
  {
    var raw := "Constructor";
    var lowered := Lower(raw);
    assert lowered[0] == ToLowerChar('C') == 'c';
    forall i | 1 <= i < |raw| ensures lowered[i] == raw[i] {
      assert !IsUpper(raw[i]);
    }
  }

  /** The text "@Constructor" mentions the name "Constructor". */
  lemma ConstructorMentioned()
    ensures MentionNames("@Constructor") == ["Constructor"]
  {
    var s := "@Constructor";
    assert |s| == 12 && s[0] == '@' && s[1] == 'C';
    assert MentionNameStart(s, 0) == 1;
    assert forall k :: 1 <= k < |s| ==> IsLetter(s[k]);
    LetterRunEndAll(s, 1);
    assert s[1..|s|] == "Constructor";
    assert MentionNamesFrom(s, |s|) == [];
    calc {
      MentionNamesFrom(s, 0);
      [s[1..|s|]] + MentionNamesFrom(s, |s|);
      ["Constructor"];
    }
  }

  // ---------------------------------------------------------------------
  // Mentions: the captured names of /@(?:\[|<)?([A-Za-z]+)(?:\]|>)?/g

  /** The end of the run of ASCII letters starting at `j`. */
  function LetterRunEnd(s: string, j: nat): (e: nat)
    requires j <= |s|
    ensures j <= e <= |s|
    ensures forall k :: j <= k < e ==> IsLetter(s[k])
    ensures e == |s| || !IsLetter(s[e])
    decreases |s| - j
  {
    if j < |s| && IsLetter(s[j]) then LetterRunEnd(s, j + 1) else j
  }

  lemma {:induction false} LetterRunEndAll(s: string, j: nat)
    requires j <= |s|
    requires forall k :: j <= k < |s| ==> IsLetter(s[k])
    ensures LetterRunEnd(s, j) == |s|
    decreases |s| - j
  {
    if j < |s| { LetterRunEndAll(s, j + 1); }
  }

  /** Where the name of a mention whose `@` is at `i` begins: after an opening
      `[` or `<` when a letter follows it, otherwise right after the `@`. */
  function MentionNameStart(s: string, i: nat): (j: nat)
    requires i < |s|
    ensures i < j <= |s|
  {
    if i + 2 < |s| && (s[i + 1] == '[' || s[i + 1] == '<') && IsLetter(s[i + 2]) then i + 2 else i + 1
  }

  predicate IsName(t: string) { |t| >= 1 && forall k :: 0 <= k < |t| ==> IsLetter(t[k]) }

  /** The names captured by successive matches of the mention pattern from `i`
      on; a match resumes the scan after its optional closing `]` or `>`. */
  function MentionNamesFrom(s: string, i: nat): (names: seq<string>)
    requires i <= |s|
    ensures forall k :: 0 <= k < |names| ==> IsName(names[k])
    decreases |s| - i
  {
    if i == |s| then []
    else if s[i] == '@' then
      var j := MentionNameStart(s, i);
      var e := LetterRunEnd(s, j);
      if e == j then MentionNamesFrom(s, i + 1)
      else
        var next := if e < |s| && (s[e] == ']' || s[e] == '>') then e + 1 else e;
        [s[j..e]] + MentionNamesFrom(s, next)
    else MentionNamesFrom(s, i + 1)
  }

  function MentionNames(s: string): seq<string> {
    MentionNamesFrom(s, 0)
  }

  /** The roles among `tokens`, in order, with unrecognised tokens dropped. */
  function RolesOf(tokens: seq<string>): (roles: seq<Role>)
    ensures |roles| <= |tokens|
  {
    Recognised(tokens, NormalizeRole)
  }

  /** The specification of mention detection: the distinct roles among the
      mentioned names, in order of first mention. */
  function MentionRoles(text: string): seq<Role> {
    Dedup(RolesOf(MentionNames(text)))
  }

  /** Mention detection returns each mentioned role once, exactly the roles
      some mention names, in the order of their first mention. */
  lemma MentionRolesSpec(text: string)
    ensures Distinct(MentionRoles(text))
    ensures forall r :: r in MentionRoles(text) ==> r in RolesOf(MentionNames(text))
    ensures forall r :: r in MentionRoles(text) <==>
              exists k :: 0 <= k < |MentionNames(text)| && NormalizeRole(MentionNames(text)[k]) == Some(r)
    ensures forall i, j :: 0 <= i < j < |MentionRoles(text)| ==>
              FirstIndex(RolesOf(MentionNames(text)), MentionRoles(text)[i]) <
              FirstIndex(RolesOf(MentionNames(text)), MentionRoles(text)[j])
  {
    DedupSpec(RolesOf(MentionNames(text)));
    forall r: Role ensures r in MentionRoles(text) <==>
        exists k :: 0 <= k < |MentionNames(text)| && NormalizeRole(MentionNames(text)[k]) == Some(r) {
      RecognisedMembership(MentionNames(text), NormalizeRole, r);
    }
  }

  /** Mention detection as the plugin runs it: the role of each match, added
      to an insertion-ordered set. */
  method DetectRolesFromMentions(text: string) returns (roles: seq<Role>)
    ensures roles == MentionRoles(text)
  {
    var names := MentionNames(text);
    var detected: seq<Role> := [];
    var seen: set<Role> := {};
    for k := 0 to |names|
      invariant detected == Dedup(RolesOf(names[..k]))
      invariant seen == set r | r in detected
    {
      assert names[..k + 1][..k] == names[..k];
      var role := NormalizeRole(names[k]);
      ghost var before := RolesOf(names[..k]);
      ghost var after := RolesOf(names[..k + 1]);
      assert after == before + (if role.Some? then [role.value] else []);
      if role.Some? {
        assert after[..|after| - 1] == before && after[|after| - 1] == role.value;
        assert Dedup(after) == if role.value in Dedup(before) then Dedup(before)
                               else Dedup(before) + [role.value];
      } else {
        assert after == before;
      }
      if role.Some? && role.value !in seen {
        detected := detected + [role.value];
        seen := seen + {role.value};
      }
    }
    assert names[..|names|] == names;
    roles := detected;
  }

  // ---------------------------------------------------------------------
  // The hidden marker.

  const MarkerPrefix: string := "<<AGENT_CONVERSATIONS:"
  const MarkerSuffix: string := ">>"

  function RoleNames(roles: seq<Role>): (names: seq<string>)
    ensures |names| == |roles|
    ensures forall k :: 0 <= k < |roles| ==> names[k] == RoleName(roles[k])
  {
    seq(|roles|, k requires 0 <= k < |roles| => RoleName(roles[k]))
  }

  /** The marker the prompt hook appends: the canonical names, comma-joined. */
  function Marker(roles: seq<Role>): string {
    MarkerPrefix + Join(RoleNames(roles), ",") + MarkerSuffix
  }

  /** The end of the run of characters other than `>` starting at `j`. */
  function NonGtRunEnd(s: string, j: nat): (e: nat)
    requires j <= |s|
    ensures j <= e <= |s|
    ensures forall k :: j <= k < e ==> s[k] != '>'
    ensures e == |s| || s[e] == '>'
    decreases |s| - j
  {
    if j < |s| && s[j] != '>' then NonGtRunEnd(s, j + 1) else j
  }

  /** The body captured by /<<AGENT_CONVERSATIONS:([^>]+)>>/ when it matches
      at index `i`. */
  function MarkerBodyAt(s: string, i: nat): (b: Option<string>)
    ensures b.Some? ==> |b.value| >= 1 && i + |MarkerPrefix| + |b.value| + |MarkerSuffix| <= |s|
  {
    if OccursAt(s, i, MarkerPrefix) then
      var j := i + |MarkerPrefix|;
      var e := NonGtRunEnd(s, j);
      if e > j && OccursAt(s, e, MarkerSuffix) then Some(s[j..e]) else None
    else None
  }

  /** The body of the leftmost marker at or after `i`. */
  function FirstMarkerFrom(s: string, i: nat): Option<string>
    requires i <= |s|
    decreases |s| - i
  {
    var here := MarkerBodyAt(s, i);
    if here.Some? then here
    else if i == |s| then None
    else FirstMarkerFrom(s, i + 1)
  }

  function TrimAll(xs: seq<string>): (r: seq<string>)
    ensures |r| == |xs|
    ensures forall k :: 0 <= k < |xs| ==> r[k] == Trim(xs[k])
  {
    seq(|xs|, k requires 0 <= k < |xs| => Trim(xs[k]))
  }

  /** The roles listed by the first marker in `text`, unrecognised entries
      dropped and repeated entries kept; `None` without a marker or when no
      entry is a role. */
  function ParseRolesFromMarker(text: string): (r: Option<seq<Role>>)
    ensures r.Some? ==> |r.value| >= 1
  {
    var body := FirstMarkerFrom(text, 0);
    if body.None? then None
    else
      var roles := RolesOf(TrimAll(Split(body.value, ',')));
      if |roles| > 0 then Some(roles) else None
  }

  /** The personas of a message: the marker's roles when it lists any,
      otherwise the mentioned roles, otherwise none. */
  function DetectRolesFromText(text: string): (r: Option<seq<Role>>)
    ensures r.Some? ==> |r.value| >= 1
    ensures ParseRolesFromMarker(text).Some? ==> r == ParseRolesFromMarker(text)
    ensures ParseRolesFromMarker(text).None? ==>
              r == (if MentionRoles(text) == [] then None else Some(MentionRoles(text)))
  {
    var markerRoles := ParseRolesFromMarker(text);
    if markerRoles.Some? && |markerRoles.value| > 0 then markerRoles
    else
      var mentionRoles := MentionRoles(text);
      if |mentionRoles| > 0 then Some(mentionRoles) else None
  }

  /** No marker can start inside text that does not contain the marker prefix,
      nor in the two newlines that separate it from an appended marker. */
  lemma NoMarkerBefore(input: string, tail: string, i: nat)
    requires !Contains(input, MarkerPrefix)
    requires i < |input| + 2
    ensures MarkerBodyAt(input + "\n\n" + tail, i).None?
  {
    var s := input + "\n\n" + tail;
    var p := MarkerPrefix;
    if i + |p| <= |input| {
      assert s[i..i + |p|] == input[i..i + |p|];
      assert !OccursAt(input, i, p);
    } else if i + |p| <= |s| {
      var m := if i <= |input| then |input| else i;
      assert s[m] == '\n';
      assert s[i..i + |p|][m - i] != p[m - i];
    }
  }

  /** The marker body of the marker appended after two newlines. */
  lemma AppendedMarkerBody(input: string, roles: seq<Role>)
    requires |roles| >= 1
    ensures MarkerBodyAt(input + "\n\n" + Marker(roles), |input| + 2) == Some(Join(RoleNames(roles), ","))
  {
    var s := input + "\n\n" + Marker(roles);
    var body := Join(RoleNames(roles), ",");
    var i := |input| + 2;
    var j := i + |MarkerPrefix|;
    var e := j + |body|;
    assert OccursAt(s, i, MarkerPrefix) && s[j..e] == body && OccursAt(s, e, MarkerSuffix) by {
      assert s[i..] == Marker(roles);
      assert Marker(roles)[..|MarkerPrefix|] == MarkerPrefix;
      assert Marker(roles)[|MarkerPrefix|..|MarkerPrefix| + |body|] == body;
      assert Marker(roles)[|MarkerPrefix| + |body|..] == MarkerSuffix;
    }
    MarkerBodyShape(roles);
    MarkerBodyFound(s, i, body);
  }

  /** The comma-joined role names are non-empty and contain no `>`. */
  lemma MarkerBodyShape(roles: seq<Role>)
    requires |roles| >= 1
    ensures |Join(RoleNames(roles), ",")| >= 1
    ensures forall k :: 0 <= k < |Join(RoleNames(roles), ",")| ==> Join(RoleNames(roles), ",")[k] != '>'
  {
    var body := Join(RoleNames(roles), ",");
    forall q | 0 <= q < |roles| ensures '>' !in RoleNames(roles)[q] {
      RoleNameShape(roles[q]);
    }
    JoinAvoids(RoleNames(roles), ",", '>');
    assert |body| >= 1 by {
      if |roles| > 1 { assert body == RoleNames(roles)[0] + "," + Join(RoleNames(roles)[1..], ","); }
      RoleNameShape(roles[0]);
    }
  }

  /** A marker prefix, a non-empty body without `>` and the suffix, in a row,
      are matched with that body. */
  lemma MarkerBodyFound(s: string, i: nat, body: string)
    requires |body| >= 1 && forall k :: 0 <= k < |body| ==> body[k] != '>'
    requires OccursAt(s, i, MarkerPrefix)
    requires i + |MarkerPrefix| + |body| <= |s| && s[i + |MarkerPrefix|..i + |MarkerPrefix| + |body|] == body
    requires OccursAt(s, i + |MarkerPrefix| + |body|, MarkerSuffix)
    ensures MarkerBodyAt(s, i) == Some(body)
  {
    var j := i + |MarkerPrefix|;
    var e := j + |body|;
    forall k | j <= k < e ensures s[k] != '>' {
      assert s[k] == s[j..e][k - j];
    }
    assert s[e] == '>' by { assert s[e..e + |MarkerSuffix|][0] == s[e]; }
    NonGtRunEndStops(s, j, e);
  }

  lemma {:induction false} NonGtRunEndStops(s: string, j: nat, e: nat)
    requires j <= e < |s| && s[e] == '>'
    requires forall k :: j <= k < e ==> s[k] != '>'
    ensures NonGtRunEnd(s, j) == e
    decreases e - j
  {
    if j < e { NonGtRunEndStops(s, j + 1, e); }
  }

  /** The leftmost marker is found by scanning past positions where none starts. */
  lemma {:induction false} FirstMarkerSkips(s: string, i: nat, m: nat)
    requires i <= m <= |s|
    requires forall k :: i <= k < m ==> MarkerBodyAt(s, k).None?
    ensures FirstMarkerFrom(s, i) == FirstMarkerFrom(s, m)
    decreases m - i
  {
    if i < m { FirstMarkerSkips(s, i + 1, m); }
  }

  /** A canonical name, trimmed, resolves to its role. */
  lemma TrimmedNameResolves(r: Role)
    ensures NormalizeRole(Trim(RoleName(r))) == Some(r)
  {
    var n := RoleName(r);
    assert IsTrimmed(n) by {
      RoleNameShape(r);
      assert !IsSpace(n[0]) && !IsSpace(n[|n| - 1]);
    }
    TrimFixesTrimmed(n);
    assert Trim(n) == n;
    NormalizeRoleIgnoresCase(n, n, r);
  }

  /** Reading back the canonical names gives the roles back. */
  lemma RolesOfRoleNames(roles: seq<Role>)
    ensures RolesOf(TrimAll(RoleNames(roles))) == roles
  {
    var tokens := TrimAll(RoleNames(roles));
    forall k | 0 <= k < |tokens| ensures NormalizeRole(tokens[k]) == Some(roles[k]) {
      TrimmedNameResolves(roles[k]);
    }
    RecognisedPointwise(tokens, NormalizeRole, roles);
  }

  /** Marker round trip: parsing text that ends with a marker built from a
      non-empty role list gives that list back, provided the text before it
      holds no marker of its own. */
  lemma MarkerRoundTrip(input: string, roles: seq<Role>)
    requires |roles| >= 1
    requires !Contains(input, MarkerPrefix)
    ensures ParseRolesFromMarker(input + "\n\n" + Marker(roles)) == Some(roles)
  {
    var s := input + "\n\n" + Marker(roles);
    forall k | 0 <= k < |input| + 2 ensures MarkerBodyAt(s, k).None? {
      NoMarkerBefore(input, Marker(roles), k);
    }
    FirstMarkerSkips(s, 0, |input| + 2);
    AppendedMarkerBody(input, roles);
    var names := RoleNames(roles);
    forall k | 0 <= k < |names| ensures ',' !in names[k] {
      RoleNameShape(roles[k]);
    }
    SplitJoin(names, ',');
    RolesOfRoleNames(roles);
  }

  // ---------------------------------------------------------------------
  // Stripping: "".replace(/\n*<<AGENT_CONVERSATIONS:[^>]+>>/g, "")

  function NewlineRunEnd(s: string, i: nat): (e: nat)
    requires i <= |s|
    ensures i <= e <= |s|
    ensures forall k :: i <= k < e ==> s[k] == '\n'
    ensures e == |s| || s[e] != '\n'
    decreases |s| - i
  {
    if i < |s| && s[i] == '\n' then NewlineRunEnd(s, i + 1) else i
  }

  /** Where a match of the removal pattern that starts at `i` ends. */
  function RemovalEndAt(s: string, i: nat): (e: Option<nat>)
    requires i <= |s|
    ensures e.Some? ==> i < e.value <= |s|
  {
    var j := NewlineRunEnd(s, i);
    var body := MarkerBodyAt(s, j);
    if body.Some? then Some(j + |MarkerPrefix| + |body.value| + |MarkerSuffix|) else None
  }

  function StripMarkersFrom(s: string, i: nat): string
    requires i <= |s|
    decreases |s| - i
  {
    if i == |s| then []
    else
      var e := RemovalEndAt(s, i);
      if e.Some? then StripMarkersFrom(s, e.value) else [s[i]] + StripMarkersFrom(s, i + 1)
  }

  /** The text with every marker, and the newlines right before it, removed. */
  function StripMarkers(s: string): string {
    StripMarkersFrom(s, 0)
  }

  function TrimTrailingNewlines(s: string): (r: string)
    ensures |r| <= |s| && r == s[..|r|]
    ensures forall k :: |r| <= k < |s| ==> s[k] == '\n'
    ensures r == [] || r[|r| - 1] != '\n'
  {
    if s != [] && s[|s| - 1] == '\n' then TrimTrailingNewlines(s[..|s| - 1]) else s
  }

  /** Stripping the appended marker also strips the newlines that ended the
      text before it. */
  lemma StripAppendedMarker(input: string, roles: seq<Role>)
    requires |roles| >= 1
    requires !Contains(input, MarkerPrefix)
    ensures StripMarkers(input + "\n\n" + Marker(roles)) == TrimTrailingNewlines(input)
  {
    var s := input + "\n\n" + Marker(roles);
    var k := |TrimTrailingNewlines(input)|;
    AppendedMarkerRemoval(input, roles);
    NoRemovalBefore(input, roles);
    StripKeeps(s, 0, k);
    assert s[..k] == input[..k];
  }

  /** The removal pattern matches from the start of the input's trailing
      newlines to the end of the appended marker. */
  lemma AppendedMarkerRemoval(input: string, roles: seq<Role>)
    requires |roles| >= 1
    ensures RemovalEndAt(input + "\n\n" + Marker(roles), |TrimTrailingNewlines(input)|)
            == Some(|input + "\n\n" + Marker(roles)|)
  {
    var s := input + "\n\n" + Marker(roles);
    var j := |input| + 2;
    var body := Join(RoleNames(roles), ",");
    var k := |TrimTrailingNewlines(input)|;
    assert k <= |s| && NewlineRunEnd(s, k) == j by { NewlinesBeforeMarker(input, Marker(roles)); }
    assert MarkerBodyAt(s, j) == Some(body) by { AppendedMarkerBody(input, roles); }
    assert |s| == j + |MarkerPrefix| + |body| + |MarkerSuffix| by {
      assert |Marker(roles)| == |MarkerPrefix| + |body| + |MarkerSuffix|;
    }
    RemovalEndFrom(s, k, j, body, |s|);
  }

  /** A newline run ending at a marker is removed up to the marker's end. */
  lemma RemovalEndFrom(s: string, k: nat, j: nat, body: string, e: nat)
    requires k <= |s| && NewlineRunEnd(s, k) == j && MarkerBodyAt(s, j) == Some(body)
    requires e == j + |MarkerPrefix| + |body| + |MarkerSuffix|
    ensures RemovalEndAt(s, k) == Some(e)
  {
  }

  /** The newline run starting where the input's trailing newlines begin
      reaches the text appended after two more newlines. */
  lemma NewlinesBeforeMarker(input: string, tail: string)
    requires |tail| >= 1 && tail[0] == '<'
    ensures NewlineRunEnd(input + "\n\n" + tail, |TrimTrailingNewlines(input)|) == |input| + 2
  {
    var s := input + "\n\n" + tail;
    var k := |TrimTrailingNewlines(input)|;
    var j := |input| + 2;
    assert s[j] == '<';
    forall m | k <= m < j ensures s[m] == '\n' {
      if m < |input| { assert s[m] == input[m]; }
    }
    NewlineRunEndStops(s, k, j);
  }

  /** No match of the removal pattern starts before the input's trailing
      newlines. */
  lemma NoRemovalBefore(input: string, roles: seq<Role>)
    requires !Contains(input, MarkerPrefix)
    ensures forall i :: 0 <= i < |TrimTrailingNewlines(input)| ==>
              RemovalEndAt(input + "\n\n" + Marker(roles), i).None?
  {
    var s := input + "\n\n" + Marker(roles);
    var k := |TrimTrailingNewlines(input)|;
    forall i | 0 <= i < k ensures RemovalEndAt(s, i).None? {
      var j := NewlineRunEnd(s, i);
      assert s[k - 1] != '\n';
      assert j < k;
      NoMarkerBefore(input, Marker(roles), j);
    }
  }

  lemma {:induction false} NewlineRunEndStops(s: string, i: nat, e: nat)
    requires i <= e < |s| && s[e] != '\n'
    requires forall m :: i <= m < e ==> s[m] == '\n'
    ensures NewlineRunEnd(s, i) == e
    decreases e - i
  {
    if i < e { NewlineRunEndStops(s, i + 1, e); }
  }

  lemma {:induction false} StripKeeps(s: string, i: nat, k: nat)
    requires i <= k < |s|
    requires forall m :: i <= m < k ==> RemovalEndAt(s, m).None?
    requires RemovalEndAt(s, k) == Some(|s|)
    ensures StripMarkersFrom(s, i) == s[i..k]
    decreases k - i
  {
    if i < k {
      assert RemovalEndAt(s, i).None?;
      assert StripMarkersFrom(s, i) == [s[i]] + StripMarkersFrom(s, i + 1);
      StripKeeps(s, i + 1, k);
      assert s[i..k] == [s[i]] + s[i + 1..k];
    } else {
      assert StripMarkersFrom(s, i) == StripMarkersFrom(s, |s|) == [];
    }
  }

  /** The prompt-append hook: when the input mentions roles, it appends the
      marker listing them after a blank line. Parsing the result recovers the
      mentioned roles, and stripping it restores the input up to trailing
      newlines, as long as the input carried no marker of its own. */
  method PromptAppend(input: string) returns (out: string)
    ensures MentionRoles(input) == [] ==> out == input
    ensures MentionRoles(input) != [] ==> out == input + "\n\n" + Marker(MentionRoles(input))
    ensures MentionRoles(input) != [] && !Contains(input, MarkerPrefix) ==>
              DetectRolesFromText(out) == Some(MentionRoles(input)) &&
              StripMarkers(out) == TrimTrailingNewlines(input)
  {
    var roles := DetectRolesFromMentions(input);
    if |roles| == 0 {
      return input;
    }
    out := input + "\n\n" + Marker(roles);
    if !Contains(input, MarkerPrefix) {
      MarkerRoundTrip(input, roles);
      StripAppendedMarker(input, roles);
    }
  }
}
