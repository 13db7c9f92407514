/** How the shutdown daemon gets a module name out of a keyspace notification (scripts/gnoi_shutdown_daemon.py). */
module ChannelParser {
  import opened Wrappers

  const TABLE_PREFIX := "CHASSIS_MODULE|"
  const KEYSPACE := "__keyspace@4__"

  /** The channel on which Redis announces a change of `key` in CONFIG_DB. */
  function ChannelOf(key: string): string {
    KEYSPACE + ":" + key
  }

  /** What follows the first `c` of `s`, or all of `s` when there is none. */
  function AfterFirst(s: string, c: char): string
  {
    if c !in s then s else if s[0] == c then s[1..] else AfterFirst(s[1..], c)
  }

  function KeyOf(channel: string): string {
    AfterFirst(channel, ':')
  }

  /** The module whose change `channel` announces; None when the daemon ignores the channel. */
  function ModuleOf(channel: string): Option<string> {
    var key := KeyOf(channel);
    if !(TABLE_PREFIX <= key) then None
    else
      var name := AfterFirst(key, '|');
      if name == "" then None else Some(name)
  }

  /** The CONFIG_DB key the daemon reads `admin_status` from. */
  function DbKey(name: string): string {
    TABLE_PREFIX + name
  }

  lemma {:induction false} AfterFirstSkips(a: string, c: char, b: string)
    requires c !in a
    ensures AfterFirst(a + [c] + b, c) == b
  {
    var s := a + [c] + b;
    assert s[|a|] == c;
    if a == "" {
      assert s[1..] == b;
    } else {
      assert a[0] in a && s[0] == a[0];
      assert forall x :: x in a[1..] ==> x in a;
      assert s[1..] == a[1..] + [c] + b;
      AfterFirstSkips(a[1..], c, b);
    }
  }

  lemma NameAfterPrefix(name: string)
    ensures AfterFirst(DbKey(name), '|') == name
  {
    AfterFirstSkips("CHASSIS_MODULE", '|', name);
    assert "CHASSIS_MODULE" + ['|'] + name == DbKey(name);
  }

  /** Parsing undoes topic construction for every non-empty name, with `|` or `:` in it or not. */
  lemma ParseUndoesTopic(name: string)
    ensures ChannelOf(DbKey(name)) == "__keyspace@4__" + ":" + ("CHASSIS_MODULE|" + name)
    ensures ModuleOf(ChannelOf(DbKey(name))) == if name == "" then None else Some(name)
    ensures KeyOf(ChannelOf(DbKey(name))) == DbKey(name)
  {
    AfterFirstSkips(KEYSPACE, ':', DbKey(name));
    NameAfterPrefix(name);
  }

  /**
    Exactly the channels that are parsed, and to what: the part after the first colon is the
    table's prefix followed by the name, so the key read back is the key that was announced.
  */
  lemma ParsedIffKeyInTable(channel: string, name: string)
    ensures ModuleOf(channel) == Some(name) <==> name != "" && KeyOf(channel) == "CHASSIS_MODULE|" + name
  {
    NameAfterPrefix(name);
    var key := KeyOf(channel);
    if TABLE_PREFIX <= key {
      var rest := key[|TABLE_PREFIX|..];
      assert key == DbKey(rest);
      NameAfterPrefix(rest);
    }
  }
}
