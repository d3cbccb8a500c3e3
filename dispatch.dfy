/** One run of `check_rss_and_send_to_users` (bot.py:115-214) as a specification over
    values: the delivery adapter with its format fallback and failure classification,
    and the passes over subscribers and over feed entries. */
module Dispatch {
  import opened Wrappers
  import opened Text
  import opened Subscribers
  import opened Matching

  /** A feed entry: its title and its link, the link being its identity. */
  datatype Item = Item(title: string, link: string)

  /** What `feedparser.parse` yields: the entries, newest first, or a parse failure (`bozo`). */
  datatype Feed = Parsed(entries: seq<Item>) | ParseFailure

  /** A MarkdownV2 message (bold title, blank line, link) or the plain-text fallback. */
  datatype Format = MarkdownV2 | PlainText

  /** One `send_message` call: recipient chat, the item it renders, the format. */
  datatype SendRequest = SendRequest(chatId: int, item: Item, format: Format)

  /** The transport's exceptions the source tells apart (bot.py:179-197). */
  datatype SendError =
    | BadRequest(message: string)
    | ChatMigrated(newChatId: int)
    | Forbidden
    | Unauthorized
    | OtherError

  datatype SendOutcome = Sent | Failed(error: SendError)

  /** The messaging transport, as far as the cycle can observe it. */
  type Transport = SendRequest -> SendOutcome

  /** `"can't parse entities" in str(e).lower()` (bot.py:181). */
  predicate CantParseEntities(message: string)
  {
    Contains(Lower(message), "can't parse entities")
  }

  /** An outcome after which the record is corrected: migration or a block. */
  predicate Heals(o: SendOutcome)
  {
    o.Failed? && (o.error.ChatMigrated? || o.error.Forbidden? || o.error.Unauthorized?)
  }

  /** What delivering one item to one chat comes to. */
  datatype Delivery = Delivered | Dropped | Migrate(newChatId: int) | Disable

  datatype DeliveryReport = DeliveryReport(result: Delivery, requests: seq<SendRequest>)

  /** The try/except of bot.py:172-197: a MarkdownV2 send, one plain-text retry when the
      markup could not be parsed, and the classification of the failure. */
  function Deliver(chat: int, item: Item, send: Transport): DeliveryReport
  {
    var first := SendRequest(chat, item, MarkdownV2);
    match send(first)
    case Sent => DeliveryReport(Delivered, [first])
    case Failed(BadRequest(message)) =>
      if CantParseEntities(message) then
        var retry := SendRequest(chat, item, PlainText);
        DeliveryReport(if send(retry).Sent? then Delivered else Dropped, [first, retry])
      else
        DeliveryReport(Dropped, [first])
    case Failed(ChatMigrated(n)) => DeliveryReport(Migrate(n), [first])
    case Failed(Forbidden) => DeliveryReport(Disable, [first])
    case Failed(Unauthorized) => DeliveryReport(Disable, [first])
    case Failed(OtherError) => DeliveryReport(Dropped, [first])
  }

  /** The delivery adapter's contract: the formatted send always comes first; exactly
      the "can't parse entities" failure earns one plain-text retry; the item counts as
      delivered when one of the two succeeded; migration and blocks are reported. */
  lemma DeliverContract(chat: int, item: Item, send: Transport)
    ensures var d := Deliver(chat, item, send);
      var first, retry := SendRequest(chat, item, MarkdownV2), SendRequest(chat, item, PlainText);
      var o := send(first);
      && 1 <= |d.requests| <= 2 && d.requests[0] == first
      && (|d.requests| == 2 <==> o.Failed? && o.error.BadRequest? && CantParseEntities(o.error.message))
      && (|d.requests| == 2 ==> d.requests[1] == retry)
      && (d.result == Delivered <==> o == Sent || (|d.requests| == 2 && send(retry) == Sent))
      && (d.result.Migrate? <==> o.Failed? && o.error.ChatMigrated?)
      && (d.result.Migrate? ==> d.result.newChatId == o.error.newChatId)
      && (d.result == Disable <==> o == Failed(Forbidden) || o == Failed(Unauthorized))
      && (d.result.Migrate? || d.result == Disable <==> Heals(o))
  {
  }

  /** One `send_message` call, with the subscriber whose turn it was. */
  datatype Attempt = Attempt(subscriber: string, request: SendRequest)

  /** The state a cycle works on: the in-memory ledger, the lines appended to the ledger
      file, the loaded store, the messages sent so far, the success counter and the
      "store needs saving" flag. */
  datatype Cycle = Cycle(
    ledger: set<string>,
    ledgerFile: seq<string>,
    subs: Store,
    sends: seq<Attempt>,
    pushed: nat,
    dirty: bool)

  function Tag(u: string, requests: seq<SendRequest>): seq<Attempt>
  {
    seq(|requests|, i requires 0 <= i < |requests| => Attempt(u, requests[i]))
  }

  /** The messages a subscriber's turn sends, given its record when the item comes up. */
  function Share(c: Config, item: Item, send: Transport): seq<SendRequest>
  {
    if ShouldSend(c, item.title) then Deliver(c.chatId.value, item, send).requests else []
  }

  /** One subscriber's turn for one item (bot.py:143-197). */
  function UserStep(st: Cycle, u: string, item: Item, send: Transport): Cycle
  {
    if u !in st.subs || !ShouldSend(st.subs[u], item.title) then st
    else
      var c := st.subs[u];
      var d := Deliver(c.chatId.value, item, send);
      var st' := st.(sends := st.sends + Tag(u, d.requests));
      match d.result
      case Delivered => st'.(pushed := st.pushed + 1)
      case Dropped => st'
      case Migrate(n) => st'.(subs := st.subs[u := c.(chatId := Some(n))], dirty := true)
      case Disable => st'.(subs := st.subs[u := c.(enabled := Some(false))], dirty := true)
  }

  /** A turn appends the subscriber's share to the message log, touches no other
      record and neither ledger. */
  lemma UserStepShape(st: Cycle, u: string, item: Item, send: Transport)
    ensures var r := UserStep(st, u, item, send);
      var reqs := if u in st.subs then Share(st.subs[u], item, send) else [];
      && r.ledger == st.ledger && r.ledgerFile == st.ledgerFile
      && r.sends == st.sends + Tag(u, reqs)
      && r.subs.Keys == st.subs.Keys
      && (forall v :: v in st.subs && v != u ==> r.subs[v] == st.subs[v])
      && (forall k :: 0 <= k < |reqs| ==> reqs[k].item == item)
  {
    if u in st.subs && ShouldSend(st.subs[u], item.title) {
      DeliverContract(st.subs[u].chatId.value, item, send);
    }
  }

  /** The subscriber loop for one item, over the store's iteration order. */
  function UsersPass(st: Cycle, users: seq<string>, item: Item, send: Transport): Cycle
    decreases |users|
  {
    if users == [] then st
    else UserStep(UsersPass(st, users[..|users| - 1], item, send), users[|users| - 1], item, send)
  }

  /** One feed entry (bot.py:137-200): skipped if its link is in the ledger, otherwise
      offered to every subscriber and then ledgered. */
  function ItemStep(st: Cycle, order: seq<string>, item: Item, send: Transport): Cycle
  {
    if item.link in st.ledger then st
    else
      var r := UsersPass(st, order, item, send);
      r.(ledger := r.ledger + {item.link}, ledgerFile := r.ledgerFile + [item.link])
  }

  /** The entry loop over `reversed(feed.entries)` (bot.py:136): the last entry, the
      oldest, is handled first and `entries[0]` last. */
  function FeedPass(st: Cycle, order: seq<string>, entries: seq<Item>, send: Transport): Cycle
    decreases |entries|
  {
    if entries == [] then st
    else ItemStep(FeedPass(st, order, entries[1..], send), order, entries[0], send)
  }

  function Reversed<T>(s: seq<T>): seq<T>
  {
    if s == [] then [] else Reversed(s[1..]) + [s[0]]
  }

  /** Handling items front to back. */
  function InOrder(st: Cycle, order: seq<string>, items: seq<Item>, send: Transport): Cycle
    decreases |items|
  {
    if items == [] then st
    else InOrder(ItemStep(st, order, items[0], send), order, items[1..], send)
  }

  lemma {:induction false} InOrderAppend(st: Cycle, order: seq<string>, items: seq<Item>, x: Item, send: Transport)
    ensures InOrder(st, order, items + [x], send) == ItemStep(InOrder(st, order, items, send), order, x, send)
    decreases |items|
  {
    if items == [] {
      assert ([] + [x])[1..] == [];
    } else {
      assert (items + [x])[1..] == items[1..] + [x];
      InOrderAppend(ItemStep(st, order, items[0], send), order, items[1..], x, send);
    }
  }

  /** The cycle handles the feed's entries oldest first: in the feed's order reversed. */
  lemma {:induction false} ProcessesOldestFirst(st: Cycle, order: seq<string>, entries: seq<Item>, send: Transport)
    ensures FeedPass(st, order, entries, send) == InOrder(st, order, Reversed(entries), send)
    decreases |entries|
  {
    if entries != [] {
      ProcessesOldestFirst(st, order, entries[1..], send);
      InOrderAppend(st, order, Reversed(entries[1..]), entries[0], send);
    }
  }

  // ----- what every part of a cycle preserves -----

  /** Ledger, ledger file, message log and counter only grow; the store keeps its keys. */
  ghost predicate Grows(st: Cycle, r: Cycle)
  {
    && st.ledger <= r.ledger
    && |st.ledgerFile| <= |r.ledgerFile| && r.ledgerFile[..|st.ledgerFile|] == st.ledgerFile
    && |st.sends| <= |r.sends| && r.sends[..|st.sends|] == st.sends
    && r.subs.Keys == st.subs.Keys
    && st.pushed <= r.pushed && r.pushed - st.pushed <= |r.sends| - |st.sends|
    && (st.dirty ==> r.dirty)
  }

  /** The only changes a cycle makes to a record: keywords and filter mode stay, `enabled`
      can only turn false, and a record that cannot receive is neither sent to nor changed. */
  ghost predicate OnlyHeals(st: Cycle, r: Cycle)
  {
    forall u :: u in st.subs && u in r.subs ==>
      && r.subs[u].keywords == st.subs[u].keywords
      && r.subs[u].filterActive == st.subs[u].filterActive
      && (r.subs[u].enabled == st.subs[u].enabled || r.subs[u].enabled == Some(false))
      && (!Eligible(st.subs[u]) ==>
            r.subs[u] == st.subs[u] && forall i :: |st.sends| <= i < |r.sends| ==> r.sends[i].subscriber != u)
  }

  /** The formatted send at position `i` hit a migration or a block. */
  ghost predicate HealsAt(s: seq<Attempt>, i: int, send: Transport)
  {
    0 <= i < |s| && s[i].request.format == MarkdownV2 && Heals(send(s[i].request))
  }

  /** The store is marked for saving exactly when a formatted send hit a migration or a
      block, and a record changes only after such a send to it. */
  ghost predicate Accounted(st: Cycle, r: Cycle, send: Transport)
  {
    && (r.dirty <==> st.dirty || exists i :: |st.sends| <= i < |r.sends| && HealsAt(r.sends, i, send))
    && forall u :: u in st.subs && u in r.subs && r.subs[u] != st.subs[u] ==>
         exists i :: |st.sends| <= i < |r.sends| && HealsAt(r.sends, i, send) && r.sends[i].subscriber == u
  }

  ghost predicate Preserves(st: Cycle, r: Cycle, send: Transport)
  {
    Grows(st, r) && OnlyHeals(st, r) && Accounted(st, r, send)
  }

  lemma PreservesTransitive(a: Cycle, b: Cycle, c: Cycle, send: Transport)
    requires Preserves(a, b, send) && Preserves(b, c, send)
    ensures Preserves(a, c, send)
  {
    GrowsTransitive(a, b, c);
    OnlyHealsTransitive(a, b, c);
    AccountedTransitive(a, b, c, send);
  }

  lemma GrowsTransitive(a: Cycle, b: Cycle, c: Cycle)
    requires Grows(a, b) && Grows(b, c)
    ensures Grows(a, c)
    ensures forall i :: |a.sends| <= i < |b.sends| ==> c.sends[i] == b.sends[i]
  {
    assert c.sends[..|a.sends|] == a.sends by {
      assert c.sends[..|a.sends|] == c.sends[..|b.sends|][..|a.sends|];
    }
    assert c.ledgerFile[..|a.ledgerFile|] == a.ledgerFile by {
      assert c.ledgerFile[..|a.ledgerFile|] == c.ledgerFile[..|b.ledgerFile|][..|a.ledgerFile|];
    }
    forall i | |a.sends| <= i < |b.sends| ensures c.sends[i] == b.sends[i] {
      assert c.sends[..|b.sends|][i] == c.sends[i];
    }
  }

  lemma OnlyHealsTransitive(a: Cycle, b: Cycle, c: Cycle)
    requires Grows(a, b) && Grows(b, c) && OnlyHeals(a, b) && OnlyHeals(b, c)
    ensures OnlyHeals(a, c)
  {
    GrowsTransitive(a, b, c);
  }

  lemma AccountedTransitive(a: Cycle, b: Cycle, c: Cycle, send: Transport)
    requires Grows(a, b) && Grows(b, c) && Accounted(a, b, send) && Accounted(b, c, send)
    ensures Accounted(a, c, send)
  {
    GrowsTransitive(a, b, c);
    if exists i :: |a.sends| <= i < |b.sends| && HealsAt(b.sends, i, send) {
      var i :| |a.sends| <= i < |b.sends| && HealsAt(b.sends, i, send);
      assert HealsAt(c.sends, i, send);
    }
    if exists i :: |a.sends| <= i < |c.sends| && HealsAt(c.sends, i, send) {
      var i :| |a.sends| <= i < |c.sends| && HealsAt(c.sends, i, send);
      if i < |b.sends| { assert HealsAt(b.sends, i, send); }
    }
    forall u | u in a.subs && u in c.subs && c.subs[u] != a.subs[u]
      ensures exists i :: |a.sends| <= i < |c.sends| && HealsAt(c.sends, i, send) && c.sends[i].subscriber == u
    {
      if b.subs[u] != a.subs[u] {
        var i :| |a.sends| <= i < |b.sends| && HealsAt(b.sends, i, send) && b.sends[i].subscriber == u;
        assert HealsAt(c.sends, i, send) && c.sends[i].subscriber == u;
      } else {
        var i :| |b.sends| <= i < |c.sends| && HealsAt(c.sends, i, send) && c.sends[i].subscriber == u;
      }
    }
  }

  lemma PreservesReflexive(a: Cycle, send: Transport)
    ensures Preserves(a, a, send)
  {
    assert a.sends[..|a.sends|] == a.sends;
    assert a.ledgerFile[..|a.ledgerFile|] == a.ledgerFile;
  }

  lemma UserStepPreserves(st: Cycle, u: string, item: Item, send: Transport)
    ensures Preserves(st, UserStep(st, u, item, send), send)
  {
    if u !in st.subs || !ShouldSend(st.subs[u], item.title) {
      PreservesReflexive(st, send);
    } else {
      SendingTurnGrows(st, u, item, send);
      SendingTurnAccounted(st, u, item, send);
    }
  }

  /** A turn that sends: its messages all go to `u`, and only `u`'s record may change. */
  lemma SendingTurnGrows(st: Cycle, u: string, item: Item, send: Transport)
    requires u in st.subs && ShouldSend(st.subs[u], item.title)
    ensures var r := UserStep(st, u, item, send);
      && Grows(st, r) && OnlyHeals(st, r)
      && forall i :: |st.sends| <= i < |r.sends| ==> r.sends[i].subscriber == u
  {
    var r := UserStep(st, u, item, send);
    var c := st.subs[u];
    var d := Deliver(c.chatId.value, item, send);
    DeliverContract(c.chatId.value, item, send);
    var tail := Tag(u, d.requests);
    assert r.sends == st.sends + tail;
    assert r.sends[..|st.sends|] == st.sends;
    assert r.ledgerFile[..|st.ledgerFile|] == st.ledgerFile;
    forall i | |st.sends| <= i < |r.sends| ensures r.sends[i].subscriber == u {
      assert r.sends[i] == tail[i - |st.sends|];
    }
  }

  /** A turn that sends marks the store dirty exactly when its formatted send healed. */
  lemma SendingTurnAccounted(st: Cycle, u: string, item: Item, send: Transport)
    requires u in st.subs && ShouldSend(st.subs[u], item.title)
    ensures Accounted(st, UserStep(st, u, item, send), send)
  {
    var r := UserStep(st, u, item, send);
    var c := st.subs[u];
    var d := Deliver(c.chatId.value, item, send);
    DeliverContract(c.chatId.value, item, send);
    var tail := Tag(u, d.requests);
    var k := |st.sends|;
    assert r.sends == st.sends + tail;
    assert r.sends[k] == Attempt(u, d.requests[0]);
    if d.result.Migrate? || d.result == Disable {
      assert HealsAt(r.sends, k, send);
    } else {
      forall i | k <= i < |r.sends| ensures !HealsAt(r.sends, i, send) {
        assert r.sends[i] == tail[i - k];
        if i == k + 1 { assert r.sends[i].request.format == PlainText; }
      }
    }
  }

  /** Every subscriber loop preserves the cycle's invariants. */
  lemma {:induction false} UsersPassPreserves(st: Cycle, users: seq<string>, item: Item, send: Transport)
    ensures Preserves(st, UsersPass(st, users, item, send), send)
    decreases |users|
  {
    if users == [] {
      PreservesReflexive(st, send);
    } else {
      var mid := UsersPass(st, users[..|users| - 1], item, send);
      UsersPassPreserves(st, users[..|users| - 1], item, send);
      UserStepPreserves(mid, users[|users| - 1], item, send);
      PreservesTransitive(st, mid, UsersPass(st, users, item, send), send);
    }
  }

  /** A subscriber loop sends only the item at hand and leaves both ledgers alone. */
  lemma {:induction false} UsersPassSendsItem(st: Cycle, users: seq<string>, item: Item, send: Transport)
    ensures var r := UsersPass(st, users, item, send);
      && r.ledger == st.ledger && r.ledgerFile == st.ledgerFile
      && |st.sends| <= |r.sends| && r.sends[..|st.sends|] == st.sends
      && forall i :: |st.sends| <= i < |r.sends| ==> r.sends[i].request.item == item
    decreases |users|
  {
    if users != [] {
      var u := users[|users| - 1];
      var mid := UsersPass(st, users[..|users| - 1], item, send);
      var r := UsersPass(st, users, item, send);
      UsersPassSendsItem(st, users[..|users| - 1], item, send);
      UserStepShape(mid, u, item, send);
      var reqs := if u in mid.subs then Share(mid.subs[u], item, send) else [];
      assert r.sends[..|mid.sends|] == mid.sends;
      assert r.sends[..|st.sends|] == mid.sends[..|st.sends|];
      forall i | |st.sends| <= i < |r.sends| ensures r.sends[i].request.item == item {
        if i < |mid.sends| {
          assert r.sends[i] == mid.sends[i];
        } else {
          assert r.sends[i] == Tag(u, reqs)[i - |mid.sends|];
        }
      }
    }
  }

  /** Only the new, unledgered items reach subscribers. */
  ghost predicate SendsFresh(st: Cycle, r: Cycle, entries: seq<Item>)
  {
    forall i :: |st.sends| <= i < |r.sends| ==>
      r.sends[i].request.item in entries && r.sends[i].request.item.link !in st.ledger
  }

  /** The ledger file gains each new link once: the appended lines are distinct, none
      was in the ledger before, and the in-memory ledger gains exactly those lines. */
  ghost predicate LedgerAppends(st: Cycle, r: Cycle)
  {
    && |st.ledgerFile| <= |r.ledgerFile|
    && (forall i :: |st.ledgerFile| <= i < |r.ledgerFile| ==> r.ledgerFile[i] !in st.ledger)
    && (forall i, j :: |st.ledgerFile| <= i < j < |r.ledgerFile| ==> r.ledgerFile[i] != r.ledgerFile[j])
    && r.ledger == st.ledger + (set x | x in r.ledgerFile[|st.ledgerFile|..])
  }

  lemma ItemStepPreserves(st: Cycle, order: seq<string>, item: Item, send: Transport)
    ensures var r := ItemStep(st, order, item, send);
      && Preserves(st, r, send)
      && SendsFresh(st, r, [item])
      && LedgerAppends(st, r)
      && item.link in r.ledger
  {
    var r := ItemStep(st, order, item, send);
    if item.link in st.ledger {
      PreservesReflexive(st, send);
    } else {
      UsersPassPreserves(st, order, item, send);
      UsersPassSendsItem(st, order, item, send);
      assert r.ledgerFile[..|st.ledgerFile|] == st.ledgerFile;
      assert r.ledgerFile[|st.ledgerFile|..] == [item.link];
    }
  }

  lemma {:induction false} FeedPassPreserves(st: Cycle, order: seq<string>, entries: seq<Item>, send: Transport)
    ensures var r := FeedPass(st, order, entries, send);
      && Preserves(st, r, send)
      && SendsFresh(st, r, entries)
      && LedgerAppends(st, r)
      && forall i :: 0 <= i < |entries| ==> entries[i].link in r.ledger
    decreases |entries|
  {
    var r := FeedPass(st, order, entries, send);
    if entries == [] {
      PreservesReflexive(st, send);
    } else {
      var mid := FeedPass(st, order, entries[1..], send);
      FeedPassPreserves(st, order, entries[1..], send);
      ItemStepPreserves(mid, order, entries[0], send);
      PreservesTransitive(st, mid, r, send);
      FreshCompose(st, mid, r, entries);
      AppendsCompose(st, mid, r);
      forall i | 0 <= i < |entries| ensures entries[i].link in r.ledger {
        if i > 0 { assert entries[i] == entries[1..][i - 1]; }
      }
    }
  }

  lemma FreshCompose(st: Cycle, mid: Cycle, r: Cycle, entries: seq<Item>)
    requires entries != []
    requires Grows(st, mid) && Grows(mid, r)
    requires SendsFresh(st, mid, entries[1..]) && SendsFresh(mid, r, [entries[0]])
    ensures SendsFresh(st, r, entries)
  {
    forall i | |st.sends| <= i < |r.sends|
      ensures r.sends[i].request.item in entries && r.sends[i].request.item.link !in st.ledger
    {
      if i < |mid.sends| {
        assert r.sends[..|mid.sends|][i] == r.sends[i];
        assert mid.sends[i].request.item in entries[1..];
      }
    }
  }

  lemma AppendsCompose(st: Cycle, mid: Cycle, r: Cycle)
    requires Grows(st, mid) && Grows(mid, r)
    requires LedgerAppends(st, mid) && LedgerAppends(mid, r)
    ensures LedgerAppends(st, r)
  {
    forall i | |st.ledgerFile| <= i < |mid.ledgerFile| ensures r.ledgerFile[i] == mid.ledgerFile[i] {
      assert r.ledgerFile[..|mid.ledgerFile|][i] == r.ledgerFile[i];
    }
    forall i | |mid.ledgerFile| <= i < |r.ledgerFile| ensures r.ledgerFile[i] !in st.ledger {
    }
    forall i, j | |st.ledgerFile| <= i < j < |r.ledgerFile| ensures r.ledgerFile[i] != r.ledgerFile[j] {
      if i < |mid.ledgerFile| && |mid.ledgerFile| <= j {
        assert r.ledgerFile[i] in mid.ledger;
      }
    }
    assert r.ledgerFile[|st.ledgerFile|..] == mid.ledgerFile[|st.ledgerFile|..] + r.ledgerFile[|mid.ledgerFile|..] by {
      assert r.ledgerFile[..|mid.ledgerFile|] == mid.ledgerFile;
    }
  }

  // ----- consequences for one cycle -----

  /** A cycle leaves the ledger holding every link of the feed, appends each of the
      new links to the ledger file exactly once, and sends only items that are in the
      feed and were not ledgered when it started. */
  lemma CycleLedger(st: Cycle, order: seq<string>, entries: seq<Item>, send: Transport)
    ensures var r := FeedPass(st, order, entries, send);
      && r.ledger == st.ledger + (set i | 0 <= i < |entries| :: entries[i].link)
      && LedgerAppends(st, r)
      && SendsFresh(st, r, entries)
  {
    var r := FeedPass(st, order, entries, send);
    FeedPassPreserves(st, order, entries, send);
    forall i | |st.ledgerFile| <= i < |r.ledgerFile|
      ensures exists j :: 0 <= j < |entries| && entries[j].link == r.ledgerFile[i]
    {
      LedgerLinesFromFeed(st, order, entries, send, i);
    }
    LedgerIsFeedLinks(st, r, entries);
  }

  /** When the appended lines are exactly links of the feed and every link of the feed
      ended up ledgered, the ledger gained precisely the feed's links. */
  lemma LedgerIsFeedLinks(st: Cycle, r: Cycle, entries: seq<Item>)
    requires LedgerAppends(st, r)
    requires forall i :: 0 <= i < |entries| ==> entries[i].link in r.ledger
    requires forall i :: |st.ledgerFile| <= i < |r.ledgerFile| ==>
      exists j :: 0 <= j < |entries| && entries[j].link == r.ledgerFile[i]
    ensures r.ledger == st.ledger + (set i | 0 <= i < |entries| :: entries[i].link)
  {
    var links := set i | 0 <= i < |entries| :: entries[i].link;
    forall x | x in r.ledger && x !in st.ledger ensures x in links {
      var k :| 0 <= k < |r.ledgerFile[|st.ledgerFile|..]| && r.ledgerFile[|st.ledgerFile|..][k] == x;
      var i := |st.ledgerFile| + k;
      var j :| 0 <= j < |entries| && entries[j].link == r.ledgerFile[i];
    }
  }

  /** Each line the cycle appends to the ledger file is the link of a feed entry. */
  lemma {:induction false} LedgerLinesFromFeed(st: Cycle, order: seq<string>, entries: seq<Item>, send: Transport, i: int)
    requires var r := FeedPass(st, order, entries, send); |st.ledgerFile| <= i < |r.ledgerFile|
    ensures exists j :: 0 <= j < |entries| && entries[j].link == FeedPass(st, order, entries, send).ledgerFile[i]
    decreases |entries|
  {
    var r := FeedPass(st, order, entries, send);
    if entries != [] {
      var mid := FeedPass(st, order, entries[1..], send);
      FeedPassPreserves(st, order, entries[1..], send);
      ItemStepPreserves(mid, order, entries[0], send);
      if i < |mid.ledgerFile| {
        LedgerLinesFromFeed(st, order, entries[1..], send, i);
        var j :| 0 <= j < |entries[1..]| && entries[1..][j].link == mid.ledgerFile[i];
        assert r.ledgerFile[..|mid.ledgerFile|][i] == r.ledgerFile[i];
        assert entries[j + 1].link == r.ledgerFile[i];
      } else {
        assert entries[0].link !in mid.ledger;
        UsersPassSendsItem(mid, order, entries[0], send);
        assert r.ledgerFile[i] == entries[0].link;
      }
    }
  }

  /** Once every link of the feed is ledgered, a cycle over it does nothing at all. */
  lemma {:induction false} LedgeredFeedIsNoop(st: Cycle, order: seq<string>, entries: seq<Item>, send: Transport)
    requires forall i :: 0 <= i < |entries| ==> entries[i].link in st.ledger
    ensures FeedPass(st, order, entries, send) == st
    decreases |entries|
  {
    if entries != [] {
      forall i | 0 <= i < |entries[1..]| ensures entries[1..][i].link in st.ledger {
        assert entries[1..][i] == entries[i + 1];
      }
      LedgeredFeedIsNoop(st, order, entries[1..], send);
    }
  }

  /** Re-running a cycle on the same feed (with any store order and any transport)
      never re-delivers anything and changes nothing. */
  lemma RerunSendsNothing(st: Cycle, order: seq<string>, order': seq<string>, entries: seq<Item>,
                          send: Transport, send': Transport)
    ensures var r := FeedPass(st, order, entries, send);
      FeedPass(r, order', entries, send') == r
  {
    FeedPassPreserves(st, order, entries, send);
    LedgeredFeedIsNoop(FeedPass(st, order, entries, send), order', entries, send');
  }

  /** A cycle changes records only by healing them: keywords and filter mode stay,
      `enabled` only turns false; a subscriber that starts the cycle disabled, or
      without a usable chat id, is sent nothing and keeps its record. */
  lemma CycleOnlyHeals(st: Cycle, order: seq<string>, entries: seq<Item>, send: Transport)
    ensures var r := FeedPass(st, order, entries, send);
      r.subs.Keys == st.subs.Keys && OnlyHeals(st, r)
  {
    FeedPassPreserves(st, order, entries, send);
  }

  /** The store needs saving exactly when some formatted send hit a migration or a
      block; without that the store comes out of the cycle unchanged. */
  lemma CycleSavesOnlyAfterHealing(st: Cycle, order: seq<string>, entries: seq<Item>, send: Transport)
    requires !st.dirty
    ensures var r := FeedPass(st, order, entries, send);
      && (r.dirty <==> exists i :: |st.sends| <= i < |r.sends| && HealsAt(r.sends, i, send))
      && (!r.dirty ==> r.subs == st.subs)
  {
    var r := FeedPass(st, order, entries, send);
    FeedPassPreserves(st, order, entries, send);
    if !r.dirty {
      forall u | u in st.subs ensures r.subs[u] == st.subs[u] {
        if r.subs[u] != st.subs[u] {
          assert false;
        }
      }
    }
  }

  // ----- what one subscriber receives -----

  /** The requests sent on behalf of subscriber `u`, in order. */
  function AttemptsOf(s: seq<Attempt>, u: string): seq<SendRequest>
    decreases |s|
  {
    if s == [] then []
    else AttemptsOf(s[..|s| - 1], u) + (if s[|s| - 1].subscriber == u then [s[|s| - 1].request] else [])
  }

  lemma {:induction false} AttemptsOfAppend(a: seq<Attempt>, b: seq<Attempt>, u: string)
    ensures AttemptsOf(a + b, u) == AttemptsOf(a, u) + AttemptsOf(b, u)
    decreases |b|
  {
    if b == [] {
      assert a + b == a;
    } else {
      assert (a + b)[..|a + b| - 1] == a + b[..|b| - 1];
      AttemptsOfAppend(a, b[..|b| - 1], u);
    }
  }

  lemma {:induction false} AttemptsOfTag(v: string, requests: seq<SendRequest>, u: string)
    ensures AttemptsOf(Tag(v, requests), u) == if v == u then requests else []
    decreases |requests|
  {
    if requests != [] {
      var front := requests[..|requests| - 1];
      assert Tag(v, requests)[..|requests| - 1] == Tag(v, front);
      AttemptsOfTag(v, front, u);
      assert requests == front + [requests[|requests| - 1]];
    }
  }

  predicate Distinct(s: seq<string>)
  {
    forall i, j :: 0 <= i < j < |s| ==> s[i] != s[j]
  }

  lemma {:induction false} UsersPassFor(st: Cycle, users: seq<string>, item: Item, send: Transport, u: string)
    requires u in st.subs && Distinct(users)
    ensures var r := UsersPass(st, users, item, send);
      && u in r.subs
      && (u !in users ==> r.subs[u] == st.subs[u] && AttemptsOf(r.sends, u) == AttemptsOf(st.sends, u))
      && (u in users ==> AttemptsOf(r.sends, u) == AttemptsOf(st.sends, u) + Share(st.subs[u], item, send))
    decreases |users|
  {
    if users != [] {
      var front, v := users[..|users| - 1], users[|users| - 1];
      var mid := UsersPass(st, front, item, send);
      UsersPassFor(st, front, item, send, u);
      UserStepShape(mid, v, item, send);
      var reqs := if v in mid.subs then Share(mid.subs[v], item, send) else [];
      AttemptsOfAppend(mid.sends, Tag(v, reqs), u);
      AttemptsOfTag(v, reqs, u);
      assert u in users <==> u in front || u == v;
    }
  }

  /** For a new item, each subscriber (visited once, in store order) is sent exactly
      what the delivery adapter sends for the record it had when the item came up: if
      the match evaluator says yes, a formatted send and perhaps the retry, else nothing. */
  lemma ItemReachesSubscriber(st: Cycle, order: seq<string>, item: Item, send: Transport, u: string)
    requires item.link !in st.ledger
    requires Distinct(order) && u in order && u in st.subs
    ensures AttemptsOf(ItemStep(st, order, item, send).sends, u) == AttemptsOf(st.sends, u) + Share(st.subs[u], item, send)
    ensures ShouldSend(st.subs[u], item.title) ==>
      Share(st.subs[u], item, send)[0] == SendRequest(st.subs[u].chatId.value, item, MarkdownV2)
  {
    UsersPassFor(st, order, item, send, u);
    if ShouldSend(st.subs[u], item.title) {
      DeliverContract(st.subs[u].chatId.value, item, send);
    }
  }

  /** A blocked subscriber: only its `enabled` changes, to false, so no later item of
      the cycle reaches it; nobody else's record changes. */
  lemma BlockDisablesOnlyThatSubscriber(st: Cycle, u: string, item: Item, send: Transport)
    requires u in st.subs && ShouldSend(st.subs[u], item.title)
    requires var o := send(SendRequest(st.subs[u].chatId.value, item, MarkdownV2));
      o == Failed(Forbidden) || o == Failed(Unauthorized)
    ensures var r := UserStep(st, u, item, send);
      && r.subs == st.subs[u := st.subs[u].(enabled := Some(false))]
      && !Eligible(r.subs[u]) && r.dirty
  {
  }

  /** A migrated chat: only that subscriber's chat id changes, to the new one. */
  lemma MigrationMovesOnlyTheChat(st: Cycle, u: string, item: Item, send: Transport, n: int)
    requires u in st.subs && ShouldSend(st.subs[u], item.title)
    requires send(SendRequest(st.subs[u].chatId.value, item, MarkdownV2)) == Failed(ChatMigrated(n))
    ensures var r := UserStep(st, u, item, send);
      && r.subs == st.subs[u := st.subs[u].(chatId := Some(n))]
      && r.dirty && r.sends == st.sends + [Attempt(u, SendRequest(st.subs[u].chatId.value, item, MarkdownV2))]
  {
  }

  // ----- a worked example -----

  /** Two subscribers with the keyword filter off; the second has blocked the bot. */
  function ScenarioStore(): Store
  {
    map["1" := Config(Some(1), [], Some(true), Some(false)),
        "2" := Config(Some(2), [], Some(true), Some(false))]
  }

  function ScenarioItem(): Item
  {
    Item("t", "l")
  }

  /** Chat 2 answers every message with a block; chat 1 accepts everything. */
  function BlockedTransport(r: SendRequest): SendOutcome
  {
    if r.chatId == 2 then Failed(Unauthorized) else Sent
  }

  /** The corrected check on the same subscribers: the entry reaches the first one once,
      the blocked one is switched off and the store saved, and the next check sends
      nothing. */
  lemma BlockedSubscriberDisabledOnce()
    ensures var st := Cycle({}, [], ScenarioStore(), [], 0, false);
      var r := FeedPass(st, ["1", "2"], [ScenarioItem()], BlockedTransport);
      && r.ledger == {"l"} && r.ledgerFile == ["l"]
      && r.sends == [Attempt("1", SendRequest(1, ScenarioItem(), MarkdownV2)),
                     Attempt("2", SendRequest(2, ScenarioItem(), MarkdownV2))]
      && r.pushed == 1 && r.dirty
      && r.subs == ScenarioStore()["2" := ScenarioStore()["2"].(enabled := Some(false))]
      && FeedPass(r.(sends := []), ["1", "2"], [ScenarioItem()], BlockedTransport) == r.(sends := [])
  {
    assert [ScenarioItem()][1..] == [];
    assert ["1", "2"][..1] == ["1"] && ["1"][..0] == [];
  }

  function AcceptAll(r: SendRequest): SendOutcome
  {
    Sent
  }

  function RouterFan(): Config
  {
    Config(Some(1), ["Router"], Some(true), Some(true))
  }

  lemma MatchingItemSent()
    requires ShouldSend(RouterFan(), "ROUTER SALE")
    ensures ItemStep(Cycle({}, [], map["1" := RouterFan()], [], 0, false), ["1"], Item("ROUTER SALE", "l1"), AcceptAll)
         == Cycle({"l1"}, ["l1"], map["1" := RouterFan()],
                  [Attempt("1", SendRequest(1, Item("ROUTER SALE", "l1"), MarkdownV2))], 1, false)
  {
    assert ["1"][..0] == [];
  }

  lemma OtherItemLedgeredOnly(st: Cycle)
    requires st.subs == map["1" := RouterFan()] && "l2" !in st.ledger
    requires !ShouldSend(RouterFan(), "Unrelated")
    ensures ItemStep(st, ["1"], Item("Unrelated", "l2"), AcceptAll)
         == st.(ledger := st.ledger + {"l2"}, ledgerFile := st.ledgerFile + ["l2"])
  {
    assert ["1"][..0] == [];
  }

  lemma TwoEntries(st: Cycle, order: seq<string>, newer: Item, older: Item, send: Transport)
    ensures FeedPass(st, order, [newer, older], send) == ItemStep(ItemStep(st, order, older, send), order, newer, send)
  {
    assert [newer, older][1..] == [older] && [older][1..] == [];
    assert FeedPass(st, order, [older], send) == ItemStep(st, order, older, send);
  }

  /** A feed listed newest first, one subscriber filtering on "Router": the check ledgers
      both entries oldest first and sends only the matching one, once. */
  lemma KeywordScenario()
    ensures var older, newer := Item("ROUTER SALE", "l1"), Item("Unrelated", "l2");
      var r := FeedPass(Cycle({}, [], map["1" := RouterFan()], [], 0, false), ["1"], [newer, older], AcceptAll);
      && r.ledgerFile == ["l1", "l2"]
      && r.sends == [Attempt("1", SendRequest(1, older, MarkdownV2))]
      && r.pushed == 1 && !r.dirty && r.subs == map["1" := RouterFan()]
  {
    RouterExample(1);
    var older, newer := Item("ROUTER SALE", "l1"), Item("Unrelated", "l2");
    var st0 := Cycle({}, [], map["1" := RouterFan()], [], 0, false);
    TwoEntries(st0, ["1"], newer, older, AcceptAll);
    MatchingItemSent();
    OtherItemLedgeredOnly(Cycle({"l1"}, ["l1"], map["1" := RouterFan()],
                                [Attempt("1", SendRequest(1, older, MarkdownV2))], 1, false));
  }
}
