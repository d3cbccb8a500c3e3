/** The command handlers of bot.py:217-524 as functions from the stored subscriptions
    to their effect: the subscriptions afterwards, whether the file was written, and
    what the user is told. */
module Commands {
  import opened Wrappers
  import opened Text
  import opened Numbers
  import opened Ordering
  import opened Subscribers
  import opened Keywords
  import opened Matching

  /** What a command handler answers, without its wording. */
  datatype Reply =
    | Silent                       // a management command outside the private chat
    | PrivateOnly                  // `/start` outside the private chat
    | Welcome
    | Usage
    | KeywordAdded(keyword: string)
    | AlreadyPresent(keyword: string)
    | KeywordList(keywords: seq<string>)
    | NothingToDelete
    | Removed(keyword: string)
    | BadPosition
    | NoSuchKeyword(arg: string)
    | NothingToEdit
    | Replaced(was: string, now: string, position: int)
    | PositionNotANumber
    | PhraseEmpty
    | NotificationsSet(enabled: bool)
    | FilterSet(active: bool)
    | Status(enabled: bool, filterActive: bool, keywords: seq<string>, warnsNothingArrives: bool)

  /** The subscriptions after a command, whether it wrote them, and its reply. */
  datatype Effect = Effect(store: Store, saved: bool, reply: Reply)

  /** A path that only looks the record up: the store is written if the lookup changed it. */
  function LookupOnly(l: Lookup, reply: Reply): Effect
  {
    Effect(l.subs, l.modified, reply)
  }

  /** `/start` (bot.py:221-259). */
  function StartEffect(before: Store, userId: int, chatId: int): Effect
  {
    if chatId != userId then Effect(before, false, PrivateOnly)
    else LookupOnly(UserConfig(IntToString(userId), chatId, before), Welcome)
  }

  /** `/addkeyword <phrase>` (bot.py:262-287). */
  function AddKeywordEffect(before: Store, userId: int, chatId: int, args: seq<string>): Effect
  {
    if chatId != userId then Effect(before, false, Silent)
    else
      var k := CommandArgs(args);
      if k == [] then Effect(before, false, Usage)
      else
        var key := IntToString(userId);
        var l := UserConfig(key, chatId, before);
        if HasFolded(l.config.keywords, k) then LookupOnly(l, AlreadyPresent(k))
        else Effect(l.subs[key := l.config.(keywords := AddKeyword(l.config.keywords, k))], true, KeywordAdded(k))
  }

  /** `/listkeywords` (bot.py:291-306). */
  function ListKeywordsEffect(before: Store, userId: int, chatId: int): Effect
  {
    if chatId != userId then Effect(before, false, Silent)
    else
      var l := UserConfig(IntToString(userId), chatId, before);
      LookupOnly(l, KeywordList(l.config.keywords))
  }

  /** `/delkeyword <phrase or position>` (bot.py:308-373). */
  function DelKeywordEffect(before: Store, userId: int, chatId: int, args: seq<string>): Effect
  {
    if chatId != userId then Effect(before, false, Silent)
    else
      var arg := CommandArgs(args);
      if arg == [] then Effect(before, false, Usage)
      else
        var key := IntToString(userId);
        var l := UserConfig(key, chatId, before);
        if l.config.keywords == [] then LookupOnly(l, NothingToDelete)
        else
          match DeleteKeyword(l.config.keywords, arg)
          case Deleted(kept, removed) => Effect(l.subs[key := l.config.(keywords := kept)], true, Removed(removed))
          case InvalidIndex => LookupOnly(l, BadPosition)
          case NotFound => LookupOnly(l, NoSuchKeyword(arg))
  }

  /** `/editkeyword <position> <phrase>` (bot.py:376-423). */
  function EditKeywordEffect(before: Store, userId: int, chatId: int, args: seq<string>): Effect
  {
    if chatId != userId then Effect(before, false, Silent)
    else if |args| < 2 then Effect(before, false, Usage)
    else
      var key := IntToString(userId);
      EditRecord(UserConfig(key, chatId, before), key, args)
  }

  /** The part of `/editkeyword` after the caller's record was looked up (bot.py:390-423). */
  function EditRecord(l: Lookup, key: string, args: seq<string>): Effect
    requires |args| >= 2
  {
    if l.config.keywords == [] then LookupOnly(l, NothingToEdit)
    else
      var phrase := CommandArgs(args[1..]);
      match EditKeyword(l.config.keywords, args[0], phrase)
      case Edited(kept, replaced) =>
        Effect(l.subs[key := l.config.(keywords := kept)], true, Replaced(replaced, phrase, ParseInt(args[0]).value))
      case NotANumber => LookupOnly(l, PositionNotANumber)
      case EmptyPhrase => LookupOnly(l, PhraseEmpty)
      case NoSuchPosition => LookupOnly(l, BadPosition)
  }

  /** `/enablenotifications` and `/disablenotifications` (bot.py:425-447). */
  function NotificationsEffect(before: Store, userId: int, chatId: int, enable: bool): Effect
  {
    if chatId != userId then Effect(before, false, Silent)
    else
      var key := IntToString(userId);
      var l := UserConfig(key, chatId, before);
      Effect(l.subs[key := l.config.(enabled := Some(enable))], true, NotificationsSet(enable))
  }

  /** `/togglefilter` (bot.py:449-481). */
  function ToggleFilterEffect(before: Store, userId: int, chatId: int): Effect
  {
    if chatId != userId then Effect(before, false, Silent)
    else
      var key := IntToString(userId);
      var l := UserConfig(key, chatId, before);
      var flipped := l.config.(filterActive := Some(!l.config.filterActive.GetOr(true)));
      Effect(l.subs[key := flipped], true, FilterSet(flipped.filterActive.value))
  }

  /** `/myrssstatus` (bot.py:483-524). */
  function StatusEffect(before: Store, userId: int, chatId: int): Effect
  {
    if chatId != userId then Effect(before, false, Silent)
    else
      var l := UserConfig(IntToString(userId), chatId, before);
      var filterActive := l.config.filterActive.GetOr(true);
      LookupOnly(l, Status(l.config.enabled.GetOr(true), filterActive, l.config.keywords,
                           filterActive && l.config.keywords == []))
  }

  /** Only `key`'s record may differ; every other record is kept. */
  ghost predicate OthersKept(before: Store, after: Store, key: string)
  {
    forall v :: v in before && v != key ==> v in after && after[v] == before[v]
  }

  /** A command touches at most the caller's own record, adds no other key, and leaves
      the subscriptions exactly as they were when it does not write them. */
  ghost predicate Confined(before: Store, e: Effect, key: string)
  {
    && OthersKept(before, e.store, key)
    && e.store.Keys <= before.Keys + {key}
    && (!e.saved ==> e.store == before)
  }

  lemma LookupConfined(before: Store, key: string, chat: int, reply: Reply)
    ensures Confined(before, LookupOnly(UserConfig(key, chat, before), reply), key)
  {
  }

  lemma UpdateConfined(before: Store, key: string, chat: int, c: Config, reply: Reply)
    ensures Confined(before, Effect(UserConfig(key, chat, before).subs[key := c], true, reply), key)
  {
  }

  lemma EveryCommandConfined(before: Store, userId: int, chatId: int, args: seq<string>, enable: bool)
    ensures var key := IntToString(userId);
      && Confined(before, StartEffect(before, userId, chatId), key)
      && Confined(before, AddKeywordEffect(before, userId, chatId, args), key)
      && Confined(before, ListKeywordsEffect(before, userId, chatId), key)
      && Confined(before, DelKeywordEffect(before, userId, chatId, args), key)
      && Confined(before, EditKeywordEffect(before, userId, chatId, args), key)
      && Confined(before, NotificationsEffect(before, userId, chatId, enable), key)
      && Confined(before, ToggleFilterEffect(before, userId, chatId), key)
      && Confined(before, StatusEffect(before, userId, chatId), key)
  {
    StartConfined(before, userId, chatId);
    AddKeywordConfined(before, userId, chatId, args);
    ListKeywordsConfined(before, userId, chatId);
    DelKeywordConfined(before, userId, chatId, args);
    EditKeywordConfined(before, userId, chatId, args);
    NotificationsConfined(before, userId, chatId, enable);
    ToggleFilterConfined(before, userId, chatId);
    StatusConfined(before, userId, chatId);
  }

  lemma StartConfined(before: Store, userId: int, chatId: int)
    ensures Confined(before, StartEffect(before, userId, chatId), IntToString(userId))
  {
  }

  lemma ListKeywordsConfined(before: Store, userId: int, chatId: int)
    ensures Confined(before, ListKeywordsEffect(before, userId, chatId), IntToString(userId))
  {
  }

  lemma NotificationsConfined(before: Store, userId: int, chatId: int, enable: bool)
    ensures Confined(before, NotificationsEffect(before, userId, chatId, enable), IntToString(userId))
  {
  }

  lemma ToggleFilterConfined(before: Store, userId: int, chatId: int)
    ensures Confined(before, ToggleFilterEffect(before, userId, chatId), IntToString(userId))
  {
  }

  lemma StatusConfined(before: Store, userId: int, chatId: int)
    ensures Confined(before, StatusEffect(before, userId, chatId), IntToString(userId))
  {
  }

  lemma AddKeywordConfined(before: Store, userId: int, chatId: int, args: seq<string>)
    ensures Confined(before, AddKeywordEffect(before, userId, chatId, args), IntToString(userId))
  {
    var key, k := IntToString(userId), CommandArgs(args);
    if chatId == userId && k != [] {
      var l := UserConfig(key, chatId, before);
      if HasFolded(l.config.keywords, k) {
        LookupConfined(before, key, chatId, AlreadyPresent(k));
      } else {
        UpdateConfined(before, key, chatId, l.config.(keywords := AddKeyword(l.config.keywords, k)), KeywordAdded(k));
      }
    }
  }

  lemma EditKeywordConfined(before: Store, userId: int, chatId: int, args: seq<string>)
    ensures Confined(before, EditKeywordEffect(before, userId, chatId, args), IntToString(userId))
  {
    var key := IntToString(userId);
    if chatId == userId && |args| >= 2 {
      var l := UserConfig(key, chatId, before);
      var e := EditRecord(l, key, args);
      var d := EditKeyword(l.config.keywords, args[0], CommandArgs(args[1..]));
      if l.config.keywords != [] && d.Edited? {
        UpdateConfined(before, key, chatId, l.config.(keywords := d.keywords), e.reply);
      } else {
        LookupConfined(before, key, chatId, e.reply);
      }
    }
  }

  lemma DelKeywordConfined(before: Store, userId: int, chatId: int, args: seq<string>)
    ensures Confined(before, DelKeywordEffect(before, userId, chatId, args), IntToString(userId))
  {
    var key, arg := IntToString(userId), CommandArgs(args);
    if chatId == userId && arg != [] {
      var l := UserConfig(key, chatId, before);
      if l.config.keywords != [] {
        var d := DeleteKeyword(l.config.keywords, arg);
        if d.Deleted? {
          UpdateConfined(before, key, chatId, l.config.(keywords := d.keywords), Removed(d.removed));
        } else {
          LookupConfined(before, key, chatId, if d.InvalidIndex? then BadPosition else NoSuchKeyword(arg));
        }
      }
    }
  }

  /** The keyword list a user starts a command with: the stored one, or none for a new user. */
  function KeywordsOf(before: Store, key: string): seq<string>
  {
    if key in before then before[key].keywords else []
  }

  /** After `/addkeyword k` the phrase is in the caller's list up to case; it is reported
      as added exactly when it was not there before, the list grows by at most one, and
      a list free of case-insensitive duplicates stays so. */
  lemma AddKeywordEffectAdds(before: Store, userId: int, args: seq<string>)
    requires CommandArgs(args) != []
    ensures var k, key := CommandArgs(args), IntToString(userId);
      var e := AddKeywordEffect(before, userId, userId, args);
      && key in e.store && HasFolded(e.store[key].keywords, k)
      && (e.reply == KeywordAdded(k) <==> !HasFolded(KeywordsOf(before, key), k))
      && |e.store[key].keywords| <= |KeywordsOf(before, key)| + 1
      && (FoldedDistinct(KeywordsOf(before, key)) ==> FoldedDistinct(e.store[key].keywords))
  {
    var k, key := CommandArgs(args), IntToString(userId);
    var l := UserConfig(key, userId, before);
    assert l.config.keywords == KeywordsOf(before, key);
    AddKeywordPresent(l.config.keywords, k);
    if FoldedDistinct(l.config.keywords) {
      AddKeywordKeepsDistinct(l.config.keywords, k);
    }
  }

  /** `/delkeyword` that reports a removal took that keyword out of the caller's list:
      the list got shorter, gained nothing, and keeps its order and case-insensitive
      uniqueness. */
  lemma DelKeywordEffectShrinks(before: Store, userId: int, args: seq<string>)
    requires DelKeywordEffect(before, userId, userId, args).reply.Removed?
    ensures var key, e := IntToString(userId), DelKeywordEffect(before, userId, userId, args);
      var kws0 := KeywordsOf(before, key);
      && e.saved && key in e.store
      && e.reply.keyword in kws0
      && |e.store[key].keywords| < |kws0|
      && multiset(e.store[key].keywords) <= multiset(kws0)
      && (Sorted(kws0) ==> Sorted(e.store[key].keywords))
      && (FoldedDistinct(kws0) ==> FoldedDistinct(e.store[key].keywords))
  {
    var key := IntToString(userId);
    var l := UserConfig(key, userId, before);
    assert l.config.keywords == KeywordsOf(before, key);
    DeleteKeywordShrinks(l.config.keywords, CommandArgs(args));
  }

  /** What a reported replacement means for the list `before` a user had: the 1-based
      position was in range, the entry there was replaced by the non-empty phrase, and
      the stored list is the result re-sorted. */
  ghost predicate ReplacedIn(before: seq<string>, e: Effect, key: string, args: seq<string>)
  {
    var r := e.reply;
    && r.Replaced? && e.saved && key in e.store && |args| >= 2
    && 1 <= r.position <= |before| && r.was == before[r.position - 1]
    && r.now == CommandArgs(args[1..]) && r.now != []
    && Sorted(e.store[key].keywords)
    && multiset(e.store[key].keywords) == multiset(before) - multiset{r.was} + multiset{r.now}
  }

  /** `/editkeyword n phrase` that reports a replacement put `phrase` in place of entry
      `n` and re-sorted the caller's list. */
  lemma EditKeywordEffectReplaces(before: Store, userId: int, args: seq<string>)
    requires EditKeywordEffect(before, userId, userId, args).reply.Replaced?
    ensures var key := IntToString(userId);
      ReplacedIn(KeywordsOf(before, key), EditKeywordEffect(before, userId, userId, args), key, args)
  {
    var key := IntToString(userId);
    var l := UserConfig(key, userId, before);
    assert l.config.keywords == KeywordsOf(before, key);
    assert EditKeywordEffect(before, userId, userId, args) == EditRecord(l, key, args);
    EditRecordReplaces(l, key, args);
  }

  /** A successful edit of a looked-up record stores the outcome of `EditKeyword`. */
  lemma EditRecordReplaces(l: Lookup, key: string, args: seq<string>)
    requires |args| >= 2 && EditRecord(l, key, args).reply.Replaced?
    ensures ReplacedIn(l.config.keywords, EditRecord(l, key, args), key, args)
  {
    var d := EditKeyword(l.config.keywords, args[0], CommandArgs(args[1..]));
    assert d.Edited?;
  }

  lemma AddStep(before: Store, userId: int, args: seq<string>)
    requires CommandArgs(args) != []
    requires !HasFolded(KeywordsOf(before, IntToString(userId)), CommandArgs(args))
    ensures var key := IntToString(userId);
      var l := UserConfig(key, userId, before);
      AddKeywordEffect(before, userId, userId, args).store
        == l.subs[key := l.config.(keywords := AddKeyword(KeywordsOf(before, key), CommandArgs(args)))]
  {
    var key := IntToString(userId);
    assert UserConfig(key, userId, before).config.keywords == KeywordsOf(before, key);
  }

  lemma DelStep(s: Store, userId: int, args: seq<string>, c: Config, kept: seq<string>)
    requires CommandArgs(args) != []
    requires IntToString(userId) in s && s[IntToString(userId)] == c && UpToDate(c, userId)
    requires c.keywords != [] && DeleteKeyword(c.keywords, CommandArgs(args)).Deleted?
    requires DeleteKeyword(c.keywords, CommandArgs(args)).keywords == kept
    ensures DelKeywordEffect(s, userId, userId, args).store == s[IntToString(userId) := c.(keywords := kept)]
  {
    var key := IntToString(userId);
    assert UserConfig(key, userId, s) == Lookup(c, s, false);
  }

  /** An `/addkeyword` that does not add leaves the keyword list alone: the store is
      either untouched or what the lookup alone makes of it. */
  lemma FailedAddIsLookup(before: Store, userId: int, args: seq<string>)
    ensures var e := AddKeywordEffect(before, userId, userId, args);
      !e.reply.KeywordAdded? ==>
        e == Effect(before, false, e.reply) || e == LookupOnly(UserConfig(IntToString(userId), userId, before), e.reply)
  {
  }

  /** Likewise for a `/delkeyword` that removes nothing: an unknown name or a position
      out of range. */
  lemma FailedDeleteIsLookup(before: Store, userId: int, args: seq<string>)
    ensures var e := DelKeywordEffect(before, userId, userId, args);
      !e.reply.Removed? ==>
        e == Effect(before, false, e.reply) || e == LookupOnly(UserConfig(IntToString(userId), userId, before), e.reply)
  {
    var arg := CommandArgs(args);
    var l := UserConfig(IntToString(userId), userId, before);
    if arg != [] && l.config.keywords != [] {
      var d := DeleteKeyword(l.config.keywords, arg);
    }
  }

  /** Likewise for an `/editkeyword` that replaces nothing: a position that is not a
      number or out of range, or an empty phrase. */
  lemma FailedEditIsLookup(before: Store, userId: int, args: seq<string>)
    ensures var e := EditKeywordEffect(before, userId, userId, args);
      !e.reply.Replaced? ==>
        e == Effect(before, false, e.reply) || e == LookupOnly(UserConfig(IntToString(userId), userId, before), e.reply)
  {
  }

  /** Overwriting a record and then writing the original back restores the store. */
  lemma OverwriteRestored(s: Store, key: string, c: Config, back: Config)
    requires key in s && s[key] == back
    ensures s[key := c][key := back] == s
  {
  }

  /** `/addkeyword` with a new phrase followed by `/delkeyword` with the same words
      leaves the caller's record as a bare lookup would have left it. */
  lemma AddThenDeleteIsLookup(before: Store, userId: int, args: seq<string>)
    requires CommandArgs(args) != [] && !IsDigitString(CommandArgs(args))
    requires Sorted(KeywordsOf(before, IntToString(userId)))
    requires !HasFolded(KeywordsOf(before, IntToString(userId)), CommandArgs(args))
    ensures var added := AddKeywordEffect(before, userId, userId, args);
      DelKeywordEffect(added.store, userId, userId, args).store == UserConfig(IntToString(userId), userId, before).subs
  {
    var key, k := IntToString(userId), CommandArgs(args);
    var kws := KeywordsOf(before, key);
    var l := UserConfig(key, userId, before);
    var grown := AddKeyword(kws, k);
    AddStep(before, userId, args);
    AddThenDeleteRestores(kws, k);
    assert |grown| == |kws| + 1;
    var c := l.config.(keywords := grown);
    assert l.config == c.(keywords := kws);
    DelStep(l.subs[key := c], userId, args, c, kws);
    OverwriteRestored(l.subs, key, c, l.config);
  }

  /** `/togglefilter` twice restores the filter mode: the store ends as a bare lookup
      would have left it. */
  lemma ToggleFilterTwice(before: Store, userId: int)
    ensures var once := ToggleFilterEffect(before, userId, userId);
      ToggleFilterEffect(once.store, userId, userId).store == UserConfig(IntToString(userId), userId, before).subs
  {
    var key := IntToString(userId);
    var l := UserConfig(key, userId, before);
    assert l.subs[key := l.config] == l.subs;
  }

  /** The filter switch really flips: the caller's filter mode after `/togglefilter` is
      the opposite of what it was (a new user starts with the filter on). */
  lemma ToggleFilterFlips(before: Store, userId: int)
    ensures var key, e := IntToString(userId), ToggleFilterEffect(before, userId, userId);
      && key in e.store
      && FilterActive(e.store[key]) == !(key in before ==> FilterActive(before[key]))
      && e.reply == FilterSet(FilterActive(e.store[key]))
  {
  }

  /** Of two notification commands only the last one counts, and the caller's record
      receives posts afterwards exactly when notifications were enabled (and there is a
      chat to send to). */
  lemma LastNotificationSettingWins(before: Store, userId: int, first: bool, second: bool)
    ensures var key := IntToString(userId);
      var a := NotificationsEffect(before, userId, userId, first);
      var b := NotificationsEffect(a.store, userId, userId, second);
      && b.store == NotificationsEffect(before, userId, userId, second).store
      && key in b.store && (Eligible(b.store[key]) <==> second && userId != 0)
  {
    var key := IntToString(userId);
    var l := UserConfig(key, userId, before);
    var a := NotificationsEffect(before, userId, userId, first);
    assert UserConfig(key, userId, a.store).config == l.config.(enabled := Some(first));
  }

  /** `/myrssstatus` warns exactly when the filter is on and the list empty, and then no
      post whatever can reach the caller. */
  lemma StatusWarningMeansSilence(before: Store, userId: int)
    ensures var key, e := IntToString(userId), StatusEffect(before, userId, userId);
      && key in e.store
      && (e.reply.warnsNothingArrives <==> FilterActive(e.store[key]) && e.store[key].keywords == [])
      && (e.reply.warnsNothingArrives ==> forall title :: !ShouldSend(e.store[key], title))
  {
    var key := IntToString(userId);
    var c := UserConfig(key, userId, before).config;
    forall title | FilterActive(c) && c.keywords == [] ensures !ShouldSend(c, title) {
      NoKeywordsSendNothing(c, title);
    }
  }
}
