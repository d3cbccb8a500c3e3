/** Subscriber records and `get_user_config_and_subscriptions` (bot.py:58-86). */
module Subscribers {
  import opened Wrappers

  /** One subscriber's record in the store. Older records may lack `chat_id`,
      `enabled` or `keyword_filter_active`, hence the options. */
  datatype Config = Config(
    chatId: Option<int>,
    keywords: seq<string>,
    enabled: Option<bool>,
    filterActive: Option<bool>)

  /** The subscriber store: user id (as decimal text) to record. */
  type Store = map<string, Config>

  /** The record created for a first-time user (bot.py:66-71). */
  function NewConfig(chat: int): Config
  {
    Config(Some(chat), [], Some(true), Some(true))
  }

  /** A record that the lookup leaves alone: current chat, both flags present. */
  predicate UpToDate(c: Config, chat: int)
  {
    c.chatId == Some(chat) && c.enabled.Some? && c.filterActive.Some?
  }

  datatype Lookup = Lookup(config: Config, subs: Store, modified: bool)

  /** The result of `get_user_config_and_subscriptions(key, chat, subs)`. */
  function UserConfig(key: string, chat: int, subs: Store): (l: Lookup)
    ensures key in l.subs && l.config == l.subs[key] && UpToDate(l.config, chat)
    ensures key !in subs ==> l.config == NewConfig(chat)
    ensures key in subs ==>
      && l.config.keywords == subs[key].keywords
      && l.config.enabled == Some(subs[key].enabled.GetOr(true))
      && l.config.filterActive == Some(subs[key].filterActive.GetOr(true))
    ensures l.subs.Keys == subs.Keys + {key}
    ensures forall k :: k in subs && k != key ==> l.subs[k] == subs[k]
    ensures l.modified <==> !(key in subs && UpToDate(subs[key], chat))
    ensures !l.modified ==> l.subs == subs
  {
    if key !in subs then
      Lookup(NewConfig(chat), subs[key := NewConfig(chat)], true)
    else
      var c := subs[key];
      var c' := Config(Some(chat), c.keywords, Some(c.enabled.GetOr(true)), Some(c.filterActive.GetOr(true)));
      assert UpToDate(c, chat) ==> c' == c;
      Lookup(c', subs[key := c'], !UpToDate(c, chat))
  }

  /** A second lookup right after the first changes nothing and reports so. */
  lemma UserConfigIdempotent(key: string, chat: int, subs: Store)
    ensures var l := UserConfig(key, chat, subs);
      UserConfig(key, chat, l.subs) == Lookup(l.config, l.subs, false)
  {
  }

  /** The lookup as the source performs it: create the record, or refresh its chat
      id, then back-fill each missing flag, noting every change in `modified`. */
  method GetUserConfigAndSubscriptions(key: string, chat: int, subs: Store)
    returns (config: Config, subs': Store, modified: bool)
    ensures Lookup(config, subs', modified) == UserConfig(key, chat, subs)
  {
    subs', modified := subs, false;
    if key !in subs' {
      subs' := subs'[key := NewConfig(chat)];
      modified := true;
    } else if subs'[key].chatId != Some(chat) {
      subs' := subs'[key := subs'[key].(chatId := Some(chat))];
      modified := true;
    }
    if subs'[key].filterActive.None? {
      subs' := subs'[key := subs'[key].(filterActive := Some(true))];
      modified := true;
    }
    if subs'[key].enabled.None? {
      subs' := subs'[key := subs'[key].(enabled := Some(true))];
      modified := true;
    }
    config := subs'[key];
  }
}
