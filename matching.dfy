/** The match evaluator: whether one new feed item goes to one subscriber
    (bot.py:144-166). */
module Matching {
  import opened Wrappers
  import opened Text
  import opened Subscribers

  /** `config.get("chat_id")` is present and truthy (bot.py:147-150). */
  predicate HasChat(c: Config)
  {
    c.chatId.Some? && c.chatId.value != 0
  }

  /** `config.get("enabled", False)` and a usable chat id (bot.py:144-150). */
  predicate Eligible(c: Config)
  {
    c.enabled.GetOr(false) && HasChat(c)
  }

  /** `config.get("keyword_filter_active", True)` (bot.py:153). */
  predicate FilterActive(c: Config)
  {
    c.filterActive.GetOr(true)
  }

  /** Some keyword, lower-cased, occurs in the lower-cased title (bot.py:162-163). */
  predicate KeywordHit(keywords: seq<string>, title: string)
  {
    exists i :: 0 <= i < |keywords| && Contains(Lower(title), Lower(keywords[i]))
  }

  /** The decision of bot.py:144-166. */
  predicate ShouldSend(c: Config, title: string)
  {
    Eligible(c) && (!FilterActive(c) || (c.keywords != [] && KeywordHit(c.keywords, title)))
  }

  /** The keyword loop of bot.py:162-166: the position of the first keyword found in
      the title, or `None` if there is none. */
  method FindMatchingKeyword(keywords: seq<string>, title: string) returns (hit: Option<nat>)
    ensures hit.None? <==> !KeywordHit(keywords, title)
    ensures hit.Some? ==> hit.value < |keywords| && Contains(Lower(title), Lower(keywords[hit.value]))
    ensures hit.Some? ==> forall j :: 0 <= j < hit.value ==> !Contains(Lower(title), Lower(keywords[j]))
  {
    hit := None;
    var folded := Lower(title);
    var i := 0;
    while i < |keywords|
      invariant 0 <= i <= |keywords|
      invariant forall j :: 0 <= j < i ==> !Contains(folded, Lower(keywords[j]))
    {
      if Contains(folded, Lower(keywords[i])) {
        hit := Some(i);
        return;
      }
      i := i + 1;
    }
  }

  /** A subscriber that is disabled, or has no usable chat id, is never sent anything. */
  lemma IneligibleNeverSent(c: Config, title: string)
    requires !Eligible(c)
    ensures !ShouldSend(c, title)
  {
  }

  /** With the filter off, every item goes to every eligible subscriber. */
  lemma FilterOffSendsEverything(c: Config, title: string)
    requires !FilterActive(c)
    ensures ShouldSend(c, title) <==> Eligible(c)
  {
  }

  /** With the filter on and no keywords, nothing is sent. */
  lemma NoKeywordsSendNothing(c: Config, title: string)
    requires FilterActive(c) && c.keywords == []
    ensures !ShouldSend(c, title)
  {
  }

  /** With the filter on, an item is sent exactly when some keyword, lower-cased, is a
      slice of the lower-cased title. */
  lemma FilterOnMatchesSubstring(c: Config, title: string)
    requires FilterActive(c)
    ensures ShouldSend(c, title) <==>
      Eligible(c) && exists i, p :: 0 <= i < |c.keywords| && OccursAt(Lower(title), Lower(c.keywords[i]), p)
  {
    forall i | 0 <= i < |c.keywords| {
      ContainsIffOccurs(Lower(title), Lower(c.keywords[i]));
    }
  }

  /** The decision ignores case in the title and in the keywords. */
  lemma ShouldSendIgnoresCase(c: Config, title: string)
    ensures ShouldSend(c, Lower(title)) == ShouldSend(c, title)
    ensures ShouldSend(c.(keywords := seq(|c.keywords|, i requires 0 <= i < |c.keywords| => Lower(c.keywords[i]))), title)
         == ShouldSend(c, title)
  {
    LowerIdempotent(title);
    var c' := c.(keywords := seq(|c.keywords|, i requires 0 <= i < |c.keywords| => Lower(c.keywords[i])));
    forall i | 0 <= i < |c.keywords|
      ensures Contains(Lower(title), Lower(c'.keywords[i])) == Contains(Lower(title), Lower(c.keywords[i]))
    {
      LowerIdempotent(c.keywords[i]);
    }
    assert KeywordHit(c'.keywords, title) == KeywordHit(c.keywords, title);
  }

  lemma LowerRouter()
    ensures Lower("Router") == "router"
  {
  }

  lemma LowerTitles()
    ensures Lower("new router available") == "new router available"
    ensures Lower("ROUTER SALE") == "router sale"
  {
  }

  lemma RouterInTitles()
    ensures Contains(Lower("new router available"), Lower("Router"))
    ensures Contains(Lower("ROUTER SALE"), Lower("Router"))
  {
    LowerRouter();
    LowerTitles();
    assert "new router available"[4..] == "router available";
    assert StartsWith("router available", "router");
    assert StartsWith("router sale", "router");
  }

  lemma {:induction false} TooShortNoMatch(hay: string, needle: string)
    requires |hay| < |needle|
    ensures !Contains(hay, needle)
    decreases |hay|
  {
    if hay != [] { TooShortNoMatch(hay[1..], needle); }
  }

  lemma LowerUnrelated()
    ensures Lower("Unrelated") == "unrelated"
  {
  }

  lemma RouterNotInUnrelated()
    ensures !Contains(Lower("Unrelated"), Lower("Router"))
  {
    LowerRouter();
    LowerUnrelated();
    var h := "unrelated";
    assert h[1..] == "nrelated" && h[1..][1..] == "related" && h[1..][1..][1..] == "elated";
    assert h[1..][1..][1..][1..] == "lated";
    TooShortNoMatch("lated", "router");
    assert !StartsWith("elated", "router") by { assert "elated"[..6][0] == 'e'; }
    assert !StartsWith("related", "router") by { assert "related"[..6][1] == 'e'; }
    assert !StartsWith("nrelated", "router") by { assert "nrelated"[..6][0] == 'n'; }
    assert !StartsWith("unrelated", "router") by { assert "unrelated"[..6][0] == 'u'; }
  }

  /** A keyword "Router" matches both "new router available" and "ROUTER SALE". */
  lemma RouterExample(chat: int)
    requires chat != 0
    ensures var c := Config(Some(chat), ["Router"], Some(true), Some(true));
      ShouldSend(c, "new router available") && ShouldSend(c, "ROUTER SALE") && !ShouldSend(c, "Unrelated")
  {
    RouterInTitles();
    RouterNotInUnrelated();
    assert ["Router"][0] == "Router";
  }
}
