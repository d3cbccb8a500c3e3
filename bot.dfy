/** The bot process: the in-memory ledger with the files it writes, the RSS check as an
    imperative method, and the command handlers that edit one subscriber's record. */
module Bot {
  import opened Wrappers
  import opened Text
  import opened Numbers
  import opened Subscribers
  import opened Keywords
  import opened Matching
  import opened Ordering
  import opened Dispatch
  import opened Commands

  /** `load_sent_posts_global` (bot.py:89-100) over the lines of the file: each one
      stripped, blank ones dropped. */
  function LoadLedger(lines: seq<string>): set<string>
  {
    set i | 0 <= i < |lines| && Strip(lines[i]) != [] :: Strip(lines[i])
  }

  /** A link the ledger file holds as exactly one record: `save_sent_post_global` writes it
      followed by a line break (bot.py:108), and reading the file in text mode splits at
      every '\n', '\r' and "\r\n" and strips each line (bot.py:97). A link with a line
      break inside, or with whitespace at its ends, would not read back as itself. */
  predicate LedgerLink(s: string)
  {
    Trimmed(s) && forall k :: 0 <= k < |s| ==> s[k] != '\n' && s[k] != '\r'
  }

  /** Loading the ledger file after links were appended to it gives the old ledger plus
      exactly those links, as long as each of them is one record of the file. */
  lemma LedgerReloads(lines: seq<string>, links: seq<string>)
    requires forall i :: 0 <= i < |links| ==> LedgerLink(links[i])
    ensures LoadLedger(lines + links) == LoadLedger(lines) + (set x | x in links)
  {
    var all := lines + links;
    forall j | 0 <= j < |links| ensures Strip(links[j]) == links[j] {
      StripTrimmed(links[j]);
    }
    forall x | x in LoadLedger(all) ensures x in LoadLedger(lines) + (set x | x in links) {
      var i :| 0 <= i < |all| && Strip(all[i]) != [] && Strip(all[i]) == x;
      if i < |lines| {
        assert all[i] == lines[i];
      } else {
        assert all[i] == links[i - |lines|];
      }
    }
    forall x | x in LoadLedger(lines) + (set x | x in links) ensures x in LoadLedger(all) {
      if x in LoadLedger(lines) {
        var i :| 0 <= i < |lines| && Strip(lines[i]) != [] && Strip(lines[i]) == x;
        assert all[i] == lines[i];
      } else {
        var j :| 0 <= j < |links| && links[j] == x;
        assert all[|lines| + j] == links[j];
      }
    }
  }

  /** A check keeps the in-memory ledger equal to what its file loads as, provided each
      of the feed's links is one record of the file. */
  lemma CycleKeepsLedgerLoaded(st: Cycle, order: seq<string>, entries: seq<Item>, send: Transport)
    requires st.ledger == LoadLedger(st.ledgerFile)
    requires forall i :: 0 <= i < |entries| ==> LedgerLink(entries[i].link)
    ensures var r := FeedPass(st, order, entries, send);
      r.ledger == LoadLedger(r.ledgerFile)
  {
    var r := FeedPass(st, order, entries, send);
    FeedPassPreserves(st, order, entries, send);
    var added := r.ledgerFile[|st.ledgerFile|..];
    assert r.ledgerFile == st.ledgerFile + added;
    forall k | 0 <= k < |added| ensures LedgerLink(added[k]) {
      LedgerLinesFromFeed(st, order, entries, send, |st.ledgerFile| + k);
    }
    LedgerReloads(st.ledgerFile, added);
  }

  /** A ledgered link is not processed again even after a restart: a bot started from the
      ledger file a check left behind, with any store, order and transport, sends nothing
      for the same feed and changes nothing. */
  lemma RestartSendsNothing(st: Cycle, order: seq<string>, entries: seq<Item>, send: Transport,
                            subs: Store, order': seq<string>, send': Transport)
    requires st.ledger == LoadLedger(st.ledgerFile)
    requires forall i :: 0 <= i < |entries| ==> LedgerLink(entries[i].link)
    ensures var r := FeedPass(st, order, entries, send);
      var restarted := Cycle(LoadLedger(r.ledgerFile), r.ledgerFile, subs, [], 0, false);
      FeedPass(restarted, order', entries, send') == restarted
  {
    var r := FeedPass(st, order, entries, send);
    CycleKeepsLedgerLoaded(st, order, entries, send);
    FeedPassPreserves(st, order, entries, send);
    LedgeredFeedIsNoop(Cycle(LoadLedger(r.ledgerFile), r.ledgerFile, subs, [], 0, false), order', entries, send');
  }

  /** Why the condition is needed: a link with a line break inside has no whitespace at
      its ends, yet the file holds it as two records. */
  lemma LineBreakSplitsLink()
    ensures Trimmed("a\nb") && !LedgerLink("a\nb")
  {
    assert "a\nb"[1] == '\n';
  }

  /** One subscriber's turn for one item (bot.py:143-197), on the cycle's local state. */
  method OfferToSubscriber(ghost ledger: set<string>, ghost ledgerFile: seq<string>,
                           subs: Store, sent: seq<Attempt>, pushed: nat, dirty: bool,
                           u: string, item: Item, send: Transport)
    returns (subs': Store, sent': seq<Attempt>, pushed': nat, dirty': bool)
    requires u in subs
    ensures Cycle(ledger, ledgerFile, subs', sent', pushed', dirty')
         == UserStep(Cycle(ledger, ledgerFile, subs, sent, pushed, dirty), u, item, send)
    ensures subs'.Keys == subs.Keys
  {
    subs', sent', pushed', dirty' := subs, sent, pushed, dirty;
    var c := subs[u];
    if !c.enabled.GetOr(false) || !HasChat(c) {
      return;
    }
    var sendThis := false;
    if !FilterActive(c) {
      sendThis := true;
    } else if c.keywords != [] {
      var hit := FindMatchingKeyword(c.keywords, item.title);
      sendThis := hit.Some?;
    }
    if !sendThis {
      return;
    }
    var chat := c.chatId.value;
    var first := SendRequest(chat, item, MarkdownV2);
    sent' := sent' + [Attempt(u, first)];
    match send(first)
    case Sent =>
      pushed' := pushed' + 1;
    case Failed(BadRequest(message)) =>
      if CantParseEntities(message) {
        var retry := SendRequest(chat, item, PlainText);
        sent' := sent' + [Attempt(u, retry)];
        if send(retry).Sent? {
          pushed' := pushed' + 1;
        }
      }
    case Failed(ChatMigrated(n)) =>
      subs' := subs'[u := c.(chatId := Some(n))];
      dirty' := true;
    case Failed(Forbidden) =>
      subs' := subs'[u := c.(enabled := Some(false))];
      dirty' := true;
    case Failed(Unauthorized) =>
      subs' := subs'[u := c.(enabled := Some(false))];
      dirty' := true;
    case Failed(OtherError) =>
  }

  /** The subscriber loop for one unledgered item (bot.py:142-197). */
  method OfferItem(ghost ledger: set<string>, ghost ledgerFile: seq<string>,
                   subs: Store, sent: seq<Attempt>, pushed: nat, dirty: bool,
                   order: seq<string>, item: Item, send: Transport)
    returns (subs': Store, sent': seq<Attempt>, pushed': nat, dirty': bool)
    requires forall u :: u in order ==> u in subs
    ensures Cycle(ledger, ledgerFile, subs', sent', pushed', dirty')
         == UsersPass(Cycle(ledger, ledgerFile, subs, sent, pushed, dirty), order, item, send)
    ensures subs'.Keys == subs.Keys
  {
    ghost var before := Cycle(ledger, ledgerFile, subs, sent, pushed, dirty);
    subs', sent', pushed', dirty' := subs, sent, pushed, dirty;
    for j := 0 to |order|
      invariant Cycle(ledger, ledgerFile, subs', sent', pushed', dirty') == UsersPass(before, order[..j], item, send)
      invariant subs'.Keys == subs.Keys
    {
      assert order[..j + 1][..j] == order[..j];
      subs', sent', pushed', dirty' :=
        OfferToSubscriber(ledger, ledgerFile, subs', sent', pushed', dirty', order[j], item, send);
    }
    assert order[..|order|] == order;
  }

  class RssBot {
    /** `globally_sent_posts_links` */
    var ledger: set<string>
    /** The records of sent_posts_global.txt, one per line. */
    var ledgerFile: seq<string>
    /** The contents of user_subscriptions.json. */
    var store: Store
    /** How often user_subscriptions.json has been written. */
    var storeSaves: nat

    /** Start-up: the ledger is loaded from its file (bot.py:112). */
    constructor (lines: seq<string>, subscriptions: Store)
      ensures ledger == LoadLedger(lines) && ledgerFile == lines
      ensures store == subscriptions && storeSaves == 0
    {
      ledger := LoadLedger(lines);
      ledgerFile := lines;
      store := subscriptions;
      storeSaves := 0;
    }

    /** `save_user_subscriptions` (bot.py:47-56). */
    method Save(subs: Store)
      modifies this
      ensures store == subs && storeSaves == old(storeSaves) + 1
      ensures ledger == old(ledger) && ledgerFile == old(ledgerFile)
    {
      store := subs;
      storeSaves := storeSaves + 1;
    }

    /** `check_rss_and_send_to_users` (bot.py:115-206). `order` is the store's iteration
        order; `send` stands for the transport. The run ends in the state `FeedPass`
        describes, and the store is written once, exactly when it needs saving. */
    method CheckRssAndSendToUsers(feed: Feed, order: seq<string>, send: Transport)
      returns (sent: seq<Attempt>, pushed: nat)
      requires Distinct(order) && forall u :: u in order <==> u in store
      modifies this
      ensures feed.ParseFailure? ==>
        && sent == [] && pushed == 0
        && ledger == old(ledger) && ledgerFile == old(ledgerFile)
        && store == old(store) && storeSaves == old(storeSaves)
      ensures feed.Parsed? ==>
        var r := FeedPass(Cycle(old(ledger), old(ledgerFile), old(store), [], 0, false), order, feed.entries, send);
        && ledger == r.ledger && ledgerFile == r.ledgerFile
        && sent == r.sends && pushed == r.pushed
        && store == r.subs && storeSaves == old(storeSaves) + (if r.dirty then 1 else 0)
      ensures feed.Parsed? && old(ledger) == LoadLedger(old(ledgerFile))
              && (forall i :: 0 <= i < |feed.entries| ==> LedgerLink(feed.entries[i].link)) ==>
        ledger == LoadLedger(ledgerFile)
    {
      sent, pushed := [], 0;
      if feed.ParseFailure? {
        return;
      }
      var entries := feed.entries;
      ghost var st0 := Cycle(ledger, ledgerFile, store, [], 0, false);
      var subs := store;
      var dirty := false;
      var i := |entries|;
      while i > 0
        invariant 0 <= i <= |entries|
        invariant Cycle(ledger, ledgerFile, subs, sent, pushed, dirty) == FeedPass(st0, order, entries[i..], send)
        invariant subs.Keys == st0.subs.Keys
        invariant store == st0.subs && storeSaves == old(storeSaves)
      {
        i := i - 1;
        var item := entries[i];
        assert entries[i..][1..] == entries[i + 1..];
        if item.link in ledger {
          continue;
        }
        subs, sent, pushed, dirty := OfferItem(ledger, ledgerFile, subs, sent, pushed, dirty, order, item, send);
        ledger := ledger + {item.link};
        ledgerFile := ledgerFile + [item.link];
      }
      assert entries[0..] == entries;
      CycleSavesOnlyAfterHealing(st0, order, entries, send);
      if st0.ledger == LoadLedger(st0.ledgerFile) && forall k :: 0 <= k < |entries| ==> LedgerLink(entries[k].link) {
        CycleKeepsLedgerLoaded(st0, order, entries, send);
      }
      if dirty {
        Save(subs);
      }
    }

    /** `/start` (bot.py:221-259): the record is created or refreshed, and saved if that
        changed anything. */
    method StartCommand(userId: int, chatId: int) returns (reply: Reply)
      modifies this
      ensures ledger == old(ledger) && ledgerFile == old(ledgerFile)
      ensures var e := StartEffect(old(store), userId, chatId);
        store == e.store && reply == e.reply && storeSaves == old(storeSaves) + (if e.saved then 1 else 0)
    {
      if chatId != userId {
        return PrivateOnly;
      }
      var key := IntToString(userId);
      var config, subs, modified := GetUserConfigAndSubscriptions(key, chatId, store);
      if modified {
        Save(subs);
      }
      reply := Welcome;
    }

    /** `/addkeyword <phrase>` (bot.py:262-287). */
    method AddKeywordCommand(userId: int, chatId: int, args: seq<string>) returns (reply: Reply)
      modifies this
      ensures ledger == old(ledger) && ledgerFile == old(ledgerFile)
      ensures var e := AddKeywordEffect(old(store), userId, chatId, args);
        store == e.store && reply == e.reply && storeSaves == old(storeSaves) + (if e.saved then 1 else 0)
    {
      if chatId != userId {
        return Silent;
      }
      var k := CommandArgs(args);
      if k == [] {
        return Usage;
      }
      var key := IntToString(userId);
      var config, subs, modified := GetUserConfigAndSubscriptions(key, chatId, store);
      if !HasFolded(config.keywords, k) {
        config := config.(keywords := AddKeyword(config.keywords, k));
        Save(subs[key := config]);
        reply := KeywordAdded(k);
      } else {
        if modified {
          Save(subs);
        }
        reply := AlreadyPresent(k);
      }
    }

    /** `/listkeywords` (bot.py:291-306). */
    method ListKeywordsCommand(userId: int, chatId: int) returns (reply: Reply)
      modifies this
      ensures ledger == old(ledger) && ledgerFile == old(ledgerFile)
      ensures var e := ListKeywordsEffect(old(store), userId, chatId);
        store == e.store && reply == e.reply && storeSaves == old(storeSaves) + (if e.saved then 1 else 0)
    {
      if chatId != userId {
        return Silent;
      }
      var key := IntToString(userId);
      var config, subs, modified := GetUserConfigAndSubscriptions(key, chatId, store);
      if modified {
        Save(subs);
      }
      reply := KeywordList(config.keywords);
    }

    /** `/delkeyword <phrase or position>` (bot.py:308-373): a digit string names a
        position; anything else removes every entry equal to it up to case. */
    method DelKeywordCommand(userId: int, chatId: int, args: seq<string>) returns (reply: Reply)
      modifies this
      ensures ledger == old(ledger) && ledgerFile == old(ledgerFile)
      ensures var e := DelKeywordEffect(old(store), userId, chatId, args);
        store == e.store && reply == e.reply && storeSaves == old(storeSaves) + (if e.saved then 1 else 0)
    {
      if chatId != userId {
        return Silent;
      }
      var arg := CommandArgs(args);
      if arg == [] {
        return Usage;
      }
      var key := IntToString(userId);
      var config, subs, modified := GetUserConfigAndSubscriptions(key, chatId, store);
      var kws := config.keywords;
      if kws == [] {
        if modified {
          Save(subs);
        }
        return NothingToDelete;
      }
      var outcome := RemoveKeyword(kws, arg);
      match outcome {
        case Deleted(kept, removed) =>
          Save(subs[key := config.(keywords := kept)]);
          reply := Removed(removed);
        case InvalidIndex =>
          if modified {
            Save(subs);
          }
          reply := BadPosition;
        case NotFound =>
          if modified {
            Save(subs);
          }
          reply := NoSuchKeyword(arg);
      }
    }

    /** `/editkeyword <position> <phrase>` (bot.py:376-423). */
    method EditKeywordCommand(userId: int, chatId: int, args: seq<string>) returns (reply: Reply)
      modifies this
      ensures ledger == old(ledger) && ledgerFile == old(ledgerFile)
      ensures var e := EditKeywordEffect(old(store), userId, chatId, args);
        store == e.store && reply == e.reply && storeSaves == old(storeSaves) + (if e.saved then 1 else 0)
    {
      if chatId != userId {
        return Silent;
      }
      if |args| < 2 {
        return Usage;
      }
      var key := IntToString(userId);
      var config, subs, modified := GetUserConfigAndSubscriptions(key, chatId, store);
      var kws := config.keywords;
      if kws == [] {
        if modified {
          Save(subs);
        }
        return NothingToEdit;
      }
      var phrase := CommandArgs(args[1..]);
      var outcome := ReplaceKeyword(kws, args[0], phrase);
      match outcome {
        case Edited(kept, was) =>
          Save(subs[key := config.(keywords := kept)]);
          return Replaced(was, phrase, ParseInt(args[0]).value);
        case NotANumber =>
          reply := PositionNotANumber;
        case EmptyPhrase =>
          reply := PhraseEmpty;
        case NoSuchPosition =>
          reply := BadPosition;
      }
      if modified {
        Save(subs);
      }
    }

    /** `/enablenotifications` and `/disablenotifications` (bot.py:425-447). */
    method ToggleNotificationsCommand(userId: int, chatId: int, enable: bool) returns (reply: Reply)
      modifies this
      ensures ledger == old(ledger) && ledgerFile == old(ledgerFile)
      ensures var e := NotificationsEffect(old(store), userId, chatId, enable);
        store == e.store && reply == e.reply && storeSaves == old(storeSaves) + (if e.saved then 1 else 0)
    {
      if chatId != userId {
        return Silent;
      }
      var key := IntToString(userId);
      var config, subs, _ := GetUserConfigAndSubscriptions(key, chatId, store);
      config := config.(enabled := Some(enable));
      Save(subs[key := config]);
      reply := NotificationsSet(enable);
    }

    /** `/togglefilter` (bot.py:449-481). */
    method ToggleFilterCommand(userId: int, chatId: int) returns (reply: Reply)
      modifies this
      ensures ledger == old(ledger) && ledgerFile == old(ledgerFile)
      ensures var e := ToggleFilterEffect(old(store), userId, chatId);
        store == e.store && reply == e.reply && storeSaves == old(storeSaves) + (if e.saved then 1 else 0)
    {
      if chatId != userId {
        return Silent;
      }
      var key := IntToString(userId);
      var config, subs, _ := GetUserConfigAndSubscriptions(key, chatId, store);
      var current := config.filterActive.GetOr(true);
      config := config.(filterActive := Some(!current));
      Save(subs[key := config]);
      reply := FilterSet(config.filterActive.value);
    }

    /** `/myrssstatus` (bot.py:483-524). */
    method StatusCommand(userId: int, chatId: int) returns (reply: Reply)
      modifies this
      ensures ledger == old(ledger) && ledgerFile == old(ledgerFile)
      ensures var e := StatusEffect(old(store), userId, chatId);
        store == e.store && reply == e.reply && storeSaves == old(storeSaves) + (if e.saved then 1 else 0)
    {
      if chatId != userId {
        return Silent;
      }
      var key := IntToString(userId);
      var config, subs, modified := GetUserConfigAndSubscriptions(key, chatId, store);
      if modified {
        Save(subs);
      }
      var filterActive := config.filterActive.GetOr(true);
      reply := Status(config.enabled.GetOr(true), filterActive, config.keywords,
                      filterActive && config.keywords == []);
    }
  }
}
