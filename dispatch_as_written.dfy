/** The RSS check as bot.py:115-214 behaves with the exception clause of line 192 as it
    is written. That clause names both `telegram.error.Forbidden` and
    `telegram.error.Unauthorized`. python-telegram-bot 13, which bot.py:551 names, defines
    only `Unauthorized`, and the releases from 20 on define only `Forbidden`, so evaluating
    the clause raises AttributeError. Python evaluates it for every send failure that is
    neither BadRequest nor ChatMigrated, and the AttributeError ends the whole check in
    the handler of bot.py:208-214: the entry is not ledgered and the store is not saved. */
module DispatchAsWritten {
  import opened Wrappers
  import opened Subscribers
  import opened Matching
  import opened Dispatch

  /** A check that ran to its end, or one cut off by an exception. */
  datatype Run = Finished(st: Cycle) | Aborted(st: Cycle)

  /** The failures whose handling reaches the clause of bot.py:192. */
  predicate ReachesBrokenClause(o: SendOutcome)
  {
    o.Failed? && (o.error.Forbidden? || o.error.Unauthorized? || o.error.OtherError?)
  }

  /** One subscriber's turn as written: a failure that reaches line 192 aborts the check
      after the formatted send went out. */
  function UserStepAsWritten(st: Cycle, u: string, item: Item, send: Transport): Run
  {
    if u !in st.subs || !ShouldSend(st.subs[u], item.title) then Finished(st)
    else
      var first := SendRequest(st.subs[u].chatId.value, item, MarkdownV2);
      if ReachesBrokenClause(send(first)) then Aborted(st.(sends := st.sends + [Attempt(u, first)]))
      else Finished(UserStep(st, u, item, send))
  }

  function UsersPassAsWritten(st: Cycle, users: seq<string>, item: Item, send: Transport): Run
    decreases |users|
  {
    if users == [] then Finished(st)
    else
      match UsersPassAsWritten(st, users[..|users| - 1], item, send)
      case Aborted(s) => Aborted(s)
      case Finished(s) => UserStepAsWritten(s, users[|users| - 1], item, send)
  }

  /** An abort inside the subscriber loop skips the ledger update of bot.py:199-200. */
  function ItemStepAsWritten(st: Cycle, order: seq<string>, item: Item, send: Transport): Run
  {
    if item.link in st.ledger then Finished(st)
    else
      match UsersPassAsWritten(st, order, item, send)
      case Aborted(s) => Aborted(s)
      case Finished(r) => Finished(r.(ledger := r.ledger + {item.link}, ledgerFile := r.ledgerFile + [item.link]))
  }

  function FeedPassAsWritten(st: Cycle, order: seq<string>, entries: seq<Item>, send: Transport): Run
    decreases |entries|
  {
    if entries == [] then Finished(st)
    else
      match FeedPassAsWritten(st, order, entries[1..], send)
      case Aborted(s) => Aborted(s)
      case Finished(s) => ItemStepAsWritten(s, order, entries[0], send)
  }

  /** The store file after the check as written: an aborted check never reaches the save. */
  function StoreAfter(before: Store, run: Run): Store
  {
    if run.Finished? && run.st.dirty then run.st.subs else before
  }

  /** A transport under which no formatted send fails in a way that reaches line 192. */
  ghost predicate AvoidsBrokenClause(send: Transport)
  {
    forall r: SendRequest :: r.format == MarkdownV2 ==> !ReachesBrokenClause(send(r))
  }

  lemma {:induction false} UsersPassAgrees(st: Cycle, users: seq<string>, item: Item, send: Transport)
    requires AvoidsBrokenClause(send)
    ensures UsersPassAsWritten(st, users, item, send) == Finished(UsersPass(st, users, item, send))
    decreases |users|
  {
    if users != [] {
      UsersPassAgrees(st, users[..|users| - 1], item, send);
    }
  }

  /** When no send reaches the broken clause, the check as written and the corrected
      check are the same. */
  lemma {:induction false} AsWrittenAgreesOffTheBrokenClause(st: Cycle, order: seq<string>, entries: seq<Item>, send: Transport)
    requires AvoidsBrokenClause(send)
    ensures FeedPassAsWritten(st, order, entries, send) == Finished(FeedPass(st, order, entries, send))
    decreases |entries|
  {
    if entries != [] {
      AsWrittenAgreesOffTheBrokenClause(st, order, entries[1..], send);
      UsersPassAgrees(FeedPass(st, order, entries[1..], send), order, entries[0], send);
    }
  }

  /** A subscriber who has blocked the bot, behind one who has not: the check as written
      aborts on the block, so the entry stays unledgered and the block is never recorded;
      the next check sends the same entry to the first subscriber again, and so on every
      time. */
  lemma BlockedSubscriberResentForever()
    ensures var st := Cycle({}, [], ScenarioStore(), [], 0, false);
      var run := FeedPassAsWritten(st, ["1", "2"], [ScenarioItem()], BlockedTransport);
      && run.Aborted?
      && "l" !in run.st.ledger
      && StoreAfter(ScenarioStore(), run) == ScenarioStore()
      && run.st.sends == [Attempt("1", SendRequest(1, ScenarioItem(), MarkdownV2)),
                          Attempt("2", SendRequest(2, ScenarioItem(), MarkdownV2))]
      && var next := Cycle(run.st.ledger, run.st.ledgerFile, StoreAfter(ScenarioStore(), run), [], 0, false);
         var again := FeedPassAsWritten(next, ["1", "2"], [ScenarioItem()], BlockedTransport);
         again.Aborted? && again.st.sends == run.st.sends && "l" !in again.st.ledger
  {
    var st := Cycle({}, [], ScenarioStore(), [], 0, false);
    assert [ScenarioItem()][1..] == [];
    assert ["1", "2"][..1] == ["1"] && ["1"][..0] == [];
    var sends := [Attempt("1", SendRequest(1, ScenarioItem(), MarkdownV2)),
                  Attempt("2", SendRequest(2, ScenarioItem(), MarkdownV2))];
    assert FeedPassAsWritten(st, ["1", "2"], [ScenarioItem()], BlockedTransport) == Aborted(st.(sends := sends, pushed := 1));
  }
}
