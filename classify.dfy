/** Classification of a request by keyword groups: the intent whose groups
    match most often, and the tool providers the request names. The keyword
    dictionaries themselves are the uninterpreted classifiers of
    `Vocabulary.Keywords`. */
module Classify {
  import opened Vocabulary

  /** The keys of the intent keyword table, in declaration order. */
  const IntentKeys: seq<Intent> := [Backend, Design, Marketing, Roadmap, Research, Mixed]

  /** How many of the first `g` keyword groups of intent `c` match `text`. */
  function GroupHits(kw: Keywords, c: Intent, text: string, g: nat): (n: nat)
    ensures n <= g
    ensures n == 0 <==> forall h :: 0 <= h < g ==> !kw.intentGroup(c, h, text)
  {
    if g == 0 then 0
    else GroupHits(kw, c, text, g - 1) + (if kw.intentGroup(c, g - 1, text) then 1 else 0)
  }

  /** The score of a scored intent: the number of its keyword groups that match. */
  function Score(kw: Keywords, c: Intent, text: string): (n: nat)
    ensures n <= GroupsPerIntent
    ensures n == 0 <==> forall h :: 0 <= h < GroupsPerIntent ==> !kw.intentGroup(c, h, text)
  {
    GroupHits(kw, c, text, GroupsPerIntent)
  }

  /** `intent` is the intent of a request: `Mixed` exactly when no scored
      intent has a matching group; otherwise an intent of maximal score, the
      earliest of `Categories` among those tied. */
  predicate IntentOf(kw: Keywords, text: string, intent: Intent) {
    (intent == Mixed <==> forall c :: c in Categories ==> Score(kw, c, text) == 0) &&
    (intent != Mixed ==> intent in Categories) &&
    (intent != Mixed ==> forall c :: c in Categories ==> Score(kw, c, text) <= Score(kw, intent, text)) &&
    (forall i, j :: 0 <= i < j < |Categories| && Categories[j] == intent ==>
       Score(kw, Categories[i], text) < Score(kw, intent, text))
  }

  /** A request has one intent. */
  lemma IntentUnique(kw: Keywords, text: string, a: Intent, b: Intent)
    requires IntentOf(kw, text, a) && IntentOf(kw, text, b)
    ensures a == b
  {
    if a != Mixed && b != Mixed {
      var i :| 0 <= i < |Categories| && Categories[i] == a;
      var j :| 0 <= j < |Categories| && Categories[j] == b;
    }
  }

  /** The scoring loop of the plugin: every scored intent gets the number of
      its keyword groups that match, `Mixed` keeps 0. */
  method ScoreIntents(kw: Keywords, text: string) returns (scores: map<Intent, nat>)
    ensures forall c :: c in Categories ==> c in scores && scores[c] == Score(kw, c, text)
  {
    scores := map[Backend := 0, Design := 0, Marketing := 0, Roadmap := 0, Research := 0, Mixed := 0];
    for k := 0 to |IntentKeys|
      invariant forall i :: 0 <= i < |IntentKeys| ==> IntentKeys[i] in scores
      invariant forall i :: 0 <= i < k && IntentKeys[i] != Mixed ==>
                  scores[IntentKeys[i]] == Score(kw, IntentKeys[i], text)
      invariant forall i :: k <= i < |IntentKeys| ==> scores[IntentKeys[i]] == 0
    {
      var c := IntentKeys[k];
      if c != Mixed {
        ghost var before := scores;
        for g := 0 to GroupsPerIntent
          invariant forall i :: 0 <= i < |IntentKeys| ==> IntentKeys[i] in scores
          invariant scores[c] == GroupHits(kw, c, text, g)
          invariant forall i :: 0 <= i < |IntentKeys| && i != k ==>
                      scores[IntentKeys[i]] == before[IntentKeys[i]]
        {
          if kw.intentGroup(c, g, text) {
            scores := scores[c := scores[c] + 1];
          }
        }
      }
    }
    forall c | c in Categories ensures c in scores && scores[c] == Score(kw, c, text) {
      var i :| 0 <= i < |Categories| && Categories[i] == c;
      assert IntentKeys[i] == c;
    }
  }

  /** Intent detection as the plugin runs it: the scores, then the first
      intent of highest positive score. */
  method DetectIntent(kw: Keywords, text: string) returns (intent: Intent)
    ensures IntentOf(kw, text, intent)
  {
    var scores := ScoreIntents(kw, text);
    var best := Mixed;
    var bestScore: nat := 0;
    ghost var bestAt: int := -1;
    for k := 0 to |Categories|
      invariant -1 <= bestAt < k
      invariant bestAt == -1 ==> best == Mixed && bestScore == 0
      invariant bestAt >= 0 ==> best == Categories[bestAt] && bestScore == Score(kw, best, text) > 0
      invariant forall i :: 0 <= i < k ==> Score(kw, Categories[i], text) <= bestScore
      invariant forall i :: 0 <= i < bestAt ==> Score(kw, Categories[i], text) < bestScore
    {
      if scores[Categories[k]] > bestScore {
        best := Categories[k];
        bestScore := scores[Categories[k]];
        bestAt := k;
      }
    }
    SelectedIntent(kw, text, bestAt);
    intent := if bestScore > 0 then best else Mixed;
  }

  /** The scan's outcome is the intent of the request: no category when no
      score is positive, else the first category of highest score. */
  lemma SelectedIntent(kw: Keywords, text: string, bestAt: int)
    requires -1 <= bestAt < |Categories|
    requires bestAt >= 0 ==> Score(kw, Categories[bestAt], text) > 0
    requires forall i :: 0 <= i < |Categories| ==>
               Score(kw, Categories[i], text) <= (if bestAt == -1 then 0 else Score(kw, Categories[bestAt], text))
    requires forall i :: 0 <= i < bestAt ==> Score(kw, Categories[i], text) < Score(kw, Categories[bestAt], text)
    ensures IntentOf(kw, text, if bestAt == -1 then Mixed else Categories[bestAt])
  {
  }

  /** The position of a provider in the provider pattern table. */
  function TableIndex(p: Provider): (i: nat)
    ensures i < |ProviderTable| && ProviderTable[i] == p
  {
    match p
    case Sentry => 0
    case GitHub => 1
    case Shortcut => 2
    case Nuxt => 3
  }

  /** The providers among the first `k` table entries that `text` names, in
      table order. */
  function ProvidersUpTo(kw: Keywords, text: string, k: nat): (r: seq<Provider>)
    requires k <= |ProviderTable|
    ensures forall p :: p in r <==> kw.provider(p, text) && TableIndex(p) < k
    ensures forall i, j :: 0 <= i < j < |r| ==> TableIndex(r[i]) < TableIndex(r[j])
  {
    if k == 0 then []
    else
      var p := ProviderTable[k - 1];
      assert TableIndex(p) == k - 1;
      ProvidersUpTo(kw, text, k - 1) + (if kw.provider(p, text) then [p] else [])
  }

  /** The providers a request names: each provider the text mentions, once,
      in the order of the pattern table (not the order of mention). */
  function MentionedProviders(kw: Keywords, text: string): (r: seq<Provider>)
    ensures forall p :: p in r <==> kw.provider(p, text)
    ensures forall i, j :: 0 <= i < j < |r| ==> TableIndex(r[i]) < TableIndex(r[j])
  {
    ProvidersUpTo(kw, text, |ProviderTable|)
  }

  /** Provider detection as the plugin runs it: a scan of the pattern table
      that records each matching provider not already seen. */
  method DetectMcpProviders(kw: Keywords, text: string) returns (providers: seq<Provider>)
    ensures providers == MentionedProviders(kw, text)
  {
    providers := [];
    var seen: set<Provider> := {};
    for k := 0 to |ProviderTable|
      invariant providers == ProvidersUpTo(kw, text, k)
      invariant forall q :: q in seen <==> q in providers
    {
      var p := ProviderTable[k];
      assert TableIndex(p) == k;
      if kw.provider(p, text) && p !in seen {
        providers := providers + [p];
        seen := seen + {p};
      }
    }
  }

  /** The hints of the first `k` table entries whose provider is listed, in
      table order. */
  function HintsUpTo(providers: seq<Provider>, k: nat): (r: seq<string>)
    requires k <= |ProviderTable|
    ensures forall h :: h in r <==> exists p :: p in providers && TableIndex(p) < k && ProviderHint(p) == h
    ensures |r| <= k
  {
    if k == 0 then []
    else
      var p := ProviderTable[k - 1];
      assert TableIndex(p) == k - 1;
      HintsUpTo(providers, k - 1) + (if p in providers then [ProviderHint(p)] else [])
  }

  /** The hints shown for some providers: one per listed provider, in table
      order. */
  function McpHints(providers: seq<Provider>): (hints: seq<string>)
    ensures forall h :: h in hints <==> exists p :: p in providers && ProviderHint(p) == h
    ensures |hints| <= |ProviderTable|
  {
    HintsUpTo(providers, |ProviderTable|)
  }

  /** For detected providers, the hints are those providers' hints, one each,
      in the same order. */
  lemma {:induction false} HintsOfMentioned(kw: Keywords, text: string, k: nat)
    requires k <= |ProviderTable|
    ensures |HintsUpTo(MentionedProviders(kw, text), k)| == |ProvidersUpTo(kw, text, k)|
    ensures forall i :: 0 <= i < |ProvidersUpTo(kw, text, k)| ==>
              HintsUpTo(MentionedProviders(kw, text), k)[i] == ProviderHint(ProvidersUpTo(kw, text, k)[i])
  {
    if k > 0 {
      var p := ProviderTable[k - 1];
      assert TableIndex(p) == k - 1;
      HintsOfMentioned(kw, text, k - 1);
      assert p in MentionedProviders(kw, text) <==> kw.provider(p, text);
    }
  }
}
