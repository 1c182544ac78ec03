/** Backup files: what an export holds, and how a restore rebuilds the tables from it, statement by statement. */
module Backup {
  import opened Wrappers

  const VERSION := 1
  const SETTINGS_KEYS := ["auth_enabled", "auth_username", "auth_password_hash"]

  /** Encryption with a nonce; a key the cipher cannot use gives `None`. */
  datatype Cipher = Cipher(
    encrypt: (string, string, nat) -> Option<string>, decrypt: (string, string) -> Option<string>)
  {
    /** Decryption undoes encryption with the same key. */
    ghost predicate Sound() {
      forall key, plain, nonce ::
        encrypt(key, plain, nonce).Some? ==> decrypt(key, encrypt(key, plain, nonce).value) == Some(plain)
    }

    ghost predicate Usable(key: string) {
      forall plain, nonce :: encrypt(key, plain, nonce).Some?
    }
  }

  // ---------------------------------------------------------------- the file

  datatype Polling = Polling(insecureTls: bool, enabled: bool, statsSecs: int, configSecs: int)

  datatype SwitchRecord =
    SwitchRecord(id: string, name: string, ip: string, username: string, password: string, polling: Polling)

  datatype TokenRecord = TokenRecord(id: string, name: string, hash: string, expiry: int, createdAt: int)

  datatype Flags = Flags(enabled: bool, notifyOffline: bool, notifyOnline: bool)

  datatype ChannelRecord =
    ChannelRecord(id: string, name: string, provider: string, config: string, flags: Flags, createdAt: int)

  datatype File = File(
    version: int, settings: map<string, string>, switches: seq<SwitchRecord>, tokens: seq<TokenRecord>,
    channels: seq<ChannelRecord>, portNames: map<string, map<int, string>>)

  // -------------------------------------------------------------- the tables

  datatype SwitchRow = SwitchRow(name: string, ip: string, username: string, passwordEnc: string, polling: Polling)

  datatype TokenRow = TokenRow(name: string, hash: string, expiry: int, createdAt: int)

  datatype ChannelRow = ChannelRow(id: string, provider: string, configEnc: string, flags: Flags, createdAt: int)

  /** The channel table is keyed by its unique name, the others by their primary keys. */
  datatype Tables = Tables(
    settings: map<string, string>, switches: map<string, SwitchRow>, tokens: map<string, TokenRow>,
    channels: map<string, ChannelRow>, portNames: map<(string, int), string>)

  function SwitchFits(c: Cipher, key: string): (SwitchRecord, SwitchRow) -> bool {
    (rec: SwitchRecord, row: SwitchRow) =>
      rec.name == row.name && rec.ip == row.ip && rec.username == row.username && rec.polling == row.polling
      && c.decrypt(key, row.passwordEnc) == Some(rec.password)
  }

  function Created(createdAt: int, now: int): int {
    if createdAt == 0 then now else createdAt
  }

  /** A restored token; one that was created in second 0 is given the present. */
  function TokenFits(now: int): (TokenRecord, TokenRow) -> bool {
    (rec: TokenRecord, row: TokenRow) => row == TokenRow(rec.name, rec.hash, rec.expiry, Created(rec.createdAt, now))
  }

  /** A restored channel, apart from its id and its time, which are new. */
  function ChannelFits(c: Cipher, key: string): (ChannelRecord, ChannelRow) -> bool {
    (rec: ChannelRecord, row: ChannelRow) =>
      rec.provider == row.provider && rec.flags == row.flags && c.decrypt(key, row.configEnc) == Some(rec.config)
  }

  function SwitchId(rec: SwitchRecord): string {
    rec.id
  }

  function TokenId(rec: TokenRecord): string {
    rec.id
  }

  function TokenHash(rec: TokenRecord): string {
    rec.hash
  }

  function ChannelName(rec: ChannelRecord): string {
    rec.name
  }

  /** No two entries share a key. */
  ghost predicate Distinct<R(!new)>(recs: seq<R>, key: R -> string) {
    forall i, j :: 0 <= i < j < |recs| ==> key(recs[i]) != key(recs[j])
  }

  /** Every row comes from an entry of the list. */
  ghost predicate From<R(!new), W(!new)>(recs: seq<R>, key: R -> string, rows: map<string, W>, fits: (R, W) -> bool) {
    forall id :: id in rows ==> exists i :: 0 <= i < |recs| && key(recs[i]) == id && fits(recs[i], rows[id])
  }

  /** The table holds exactly the entries of the list. */
  ghost predicate Holds<R(!new), W(!new)>(recs: seq<R>, key: R -> string, rows: map<string, W>, fits: (R, W) -> bool) {
    && Distinct(recs, key)
    && (forall i :: 0 <= i < |recs| ==> key(recs[i]) in rows && fits(recs[i], rows[key(recs[i])]))
    && forall id :: id in rows ==> exists i :: 0 <= i < |recs| && key(recs[i]) == id
  }

  lemma HoldsNone<R(!new), W(!new)>(key: R -> string, fits: (R, W) -> bool)
    ensures Holds([], key, map[], fits)
  {
  }

  lemma HoldsIsFrom<R(!new), W(!new)>(
      recs: seq<R>, n: nat, key: R -> string, rows: map<string, W>, fits: (R, W) -> bool)
    requires n <= |recs| && Holds(recs[..n], key, rows, fits)
    ensures From(recs, key, rows, fits)
  {
    forall id | id in rows ensures exists i :: 0 <= i < |recs| && key(recs[i]) == id && fits(recs[i], rows[id]) {
      var i :| 0 <= i < |recs[..n]| && key(recs[..n][i]) == id;
      assert recs[i] == recs[..n][i];
    }
  }

  /** Inserting the next entry under a key that is not taken. */
  lemma HoldsNext<R(!new), W(!new)>(
      recs: seq<R>, n: nat, key: R -> string, rows: map<string, W>, fits: (R, W) -> bool, row: W)
    requires n < |recs| && Holds(recs[..n], key, rows, fits)
    requires key(recs[n]) !in rows && fits(recs[n], row)
    ensures Holds(recs[..n + 1], key, rows[key(recs[n]) := row], fits)
  {
    var rows1 := rows[key(recs[n]) := row];
    var s, t := recs[..n], recs[..n + 1];
    assert forall i :: 0 <= i < n ==> t[i] == s[i];
    forall id | id in rows1 ensures exists i :: 0 <= i < |t| && key(t[i]) == id {
      if id in rows {
        var i :| 0 <= i < |s| && key(s[i]) == id;
        assert key(t[i]) == id;
      } else {
        assert key(t[n]) == id;
      }
    }
  }

  /** The next key is free precisely if the list has not used it before. */
  lemma FreeIf<R(!new), W(!new)>(recs: seq<R>, n: nat, key: R -> string, rows: map<string, W>, fits: (R, W) -> bool)
    requires n < |recs| && Holds(recs[..n], key, rows, fits) && Distinct(recs, key)
    ensures key(recs[n]) !in rows
  {
    assert forall i :: 0 <= i < |recs[..n]| ==> recs[..n][i] == recs[i] && key(recs[i]) != key(recs[n]);
  }

  /** The port names of a file as rows. */
  ghost predicate PortRows(names: map<string, map<int, string>>, rows: map<(string, int), string>) {
    && (forall s, p :: s in names && p in names[s] ==> (s, p) in rows && rows[(s, p)] == names[s][p])
    && (forall k :: k in rows ==> k.0 in names && k.1 in names[k.0])
  }

  ghost predicate PortsFrom(names: map<string, map<int, string>>, rows: map<(string, int), string>) {
    forall k :: k in rows ==> k.0 in names && k.1 in names[k.0] && rows[k] == names[k.0][k.1]
  }

  /** A file whose entries violate no key: what an export always is. */
  ghost predicate Importable(f: File, enforced: bool) {
    && Distinct(f.switches, SwitchId) && Distinct(f.tokens, TokenId) && Distinct(f.tokens, TokenHash)
    && Distinct(f.channels, ChannelName)
    && (enforced ==>
          forall s :: s in f.portNames && f.portNames[s] != map[] ==> exists rec :: rec in f.switches && rec.id == s)
  }

  // ------------------------------------------------------------ the database

  class Database {
    var settings: map<string, string>
    var switches: map<string, SwitchRow>
    var tokens: map<string, TokenRow>
    var channels: map<string, ChannelRow>
    var portNames: map<(string, int), string>
    /** Which exchanges with the database go through, counted from the first, and how many there were. */
    const up: nat -> bool
    var clock: nat
    /** Whether the driver enforces foreign keys. */
    const enforced: bool
    const cipher: Cipher
    const key: string

    constructor (tables: Tables, up: nat -> bool, enforced: bool, cipher: Cipher, key: string)
      ensures State() == tables && this.up == up
      ensures this.enforced == enforced && this.cipher == cipher && this.key == key
    {
      settings, switches, tokens := tables.settings, tables.switches, tables.tokens;
      channels, portNames := tables.channels, tables.portNames;
      this.up, this.enforced, this.cipher, this.key := up, enforced, cipher, key;
      clock := 0;
    }

    ghost function State(): Tables
      reads this
    {
      Tables(settings, switches, tokens, channels, portNames)
    }

    /** Nothing goes wrong between the program and the database. */
    ghost predicate Healthy() {
      forall n :: up(n)
    }

    /** The next `n` exchanges from the given one on go through. */
    predicate UpFor(from: nat, n: nat) {
      forall i: nat :: from <= i < from + n ==> up(i)
    }

    /** One exchange, which goes through or does not. */
    method Exec() returns (ok: bool)
      modifies `clock
      ensures ok == up(old(clock)) && clock == old(clock) + 1
    {
      ok := up(clock);
      clock := clock + 1;
    }

    method SetSetting(k: string, value: string) returns (ok: bool)
      modifies `settings, `clock
      ensures settings == if ok then old(settings)[k := value] else old(settings)
      ensures Healthy() ==> ok
    {
      ok := Exec();
      if ok {
        settings := settings[k := value];
      }
    }

    method AddSwitch(rec: SwitchRecord) returns (ok: bool)
      requires cipher.Sound()
      modifies `switches, `clock
      ensures !ok ==> switches == old(switches)
      ensures ok ==>
                && rec.id !in old(switches) && rec.id in switches
                && switches == old(switches)[rec.id := switches[rec.id]]
                     && SwitchFits(cipher, key)(rec, switches[rec.id])
      ensures Healthy() && cipher.Usable(key) && rec.id !in old(switches) ==> ok
    {
      var nonce: nat :| nonce >= 0;
      var enc := cipher.encrypt(key, rec.password, nonce);
      if !enc.Some? {
        return false;
      }
      ok := Exec();
      if !ok || rec.id in switches {
        return false;
      }
      switches := switches[rec.id := SwitchRow(rec.name, rec.ip, rec.username, enc.value, rec.polling)];
    }

    method InsertToken(rec: TokenRecord, now: int) returns (ok: bool)
      modifies `tokens, `clock
      ensures !ok ==> tokens == old(tokens)
      ensures ok ==> rec.id !in old(tokens) && !HashTaken(old(tokens), rec.hash)
      ensures ok ==>
                tokens == old(tokens)[rec.id := TokenRow(rec.name, rec.hash, rec.expiry, Created(rec.createdAt, now))]
      ensures Healthy() && rec.id !in old(tokens) && !HashTaken(old(tokens), rec.hash) ==> ok
    {
      var ca := rec.createdAt;
      if ca == 0 {
        ca := now;
      }
      ok := Exec();
      if !ok || rec.id in tokens || HashTaken(tokens, rec.hash) {
        return false;
      }
      tokens := tokens[rec.id := TokenRow(rec.name, rec.hash, rec.expiry, ca)];
    }

    /** `notification.Store.Create`: the record's own id and time are ignored. */
    method CreateChannel(rec: ChannelRecord, id: string, now: int) returns (ok: bool)
      requires cipher.Sound()
      modifies `channels, `clock
      ensures !ok ==> channels == old(channels)
      ensures ok ==>
                && rec.name !in old(channels) && rec.name in channels
                && channels == old(channels)[rec.name := channels[rec.name]]
                     && ChannelFits(cipher, key)(rec, channels[rec.name])
                     && channels[rec.name].id == id && channels[rec.name].createdAt == now
      ensures Healthy() && cipher.Usable(key) && rec.name !in old(channels) && !IdTaken(old(channels), id) ==> ok
    {
      var nonce: nat :| nonce >= 0;
      var enc := cipher.encrypt(key, rec.config, nonce);
      if !enc.Some? {
        return false;
      }
      ok := Exec();
      if !ok || rec.name in channels || IdTaken(channels, id) {
        return false;
      }
      channels := channels[rec.name := ChannelRow(id, rec.provider, enc.value, rec.flags, now)];
    }

    method SetPortName(switchId: string, port: int, name: string) returns (ok: bool)
      modifies `portNames, `clock
      ensures portNames == if ok then old(portNames)[(switchId, port) := name] else old(portNames)
      ensures Healthy() && (enforced ==> switchId in switches) ==> ok
    {
      ok := Exec();
      if ok && enforced && switchId !in switches {
        ok := false;
      }
      if ok {
        portNames := portNames[(switchId, port) := name];
      }
    }

    // --------------------------------------------------------- Export, in parts

    /** `ListSwitches`: the query, any row or the end of the rows may fail, and a password may not decrypt. */
    method ListSwitches() returns (r: Option<seq<SwitchRecord>>)
      modifies `clock
      ensures r.Some? ==> Holds(r.value, SwitchId, switches, SwitchFits(cipher, key))
      ensures r.Some? ==> forall id :: id in switches ==> ScanSwitch(cipher, key, id, switches[id]).Some?
      ensures Healthy() && (forall id :: id in switches ==> ScanSwitch(cipher, key, id, switches[id]).Some?) ==> r.Some?
    {
      hide Holds, SwitchFits, ScanSwitch;
      var recs: seq<SwitchRecord> := [];
      ghost var done: map<string, SwitchRow> := map[];
      HoldsNone(SwitchId, SwitchFits(cipher, key));
      var todo := switches.Keys;
      var ok := Exec();
      while ok && exists id :: id in todo
        invariant Healthy() ==> ok
        invariant todo <= switches.Keys && Rest(switches, todo, done)
        invariant Holds(recs, SwitchId, done, SwitchFits(cipher, key))
        invariant forall id :: id in switches && id !in todo ==> ScanSwitch(cipher, key, id, switches[id]).Some?
        decreases |todo|
      {
        var id :| id in todo;
        var rec := ScanSwitch(cipher, key, id, switches[id]);
        if !rec.Some? {
          return None;
        }
        ScanSwitchFits(cipher, key, id, switches[id]);
        HoldsAppend(recs, rec.value, SwitchId, done, SwitchFits(cipher, key), switches[id]);
        recs, done, todo := recs + [rec.value], done[id := switches[id]], todo - {id};
        ok := Exec();
      }
      if !ok {
        return None;
      }
      assert done == switches;
      return Some(recs);
    }

    /** The token query of `Export`. */
    method ListTokens() returns (r: Option<seq<TokenRecord>>)
      modifies `clock
      ensures r.Some? ==> Holds(r.value, TokenId, tokens, TokenIs)
      ensures Healthy() ==> r.Some?
    {
      hide Holds;
      var recs: seq<TokenRecord> := [];
      ghost var done: map<string, TokenRow> := map[];
      HoldsNone(TokenId, TokenIs);
      var todo := tokens.Keys;
      var ok := Exec();
      while ok && exists id :: id in todo
        invariant Healthy() ==> ok
        invariant todo <= tokens.Keys && Rest(tokens, todo, done)
        invariant Holds(recs, TokenId, done, TokenIs)
        decreases |todo|
      {
        var id :| id in todo;
        var row := tokens[id];
        var rec := TokenRecord(id, row.name, row.hash, row.expiry, row.createdAt);
        HoldsAppend(recs, rec, TokenId, done, TokenIs, row);
        recs, done, todo := recs + [rec], done[id := row], todo - {id};
        ok := Exec();
      }
      if !ok {
        return None;
      }
      assert done == tokens;
      return Some(recs);
    }

    /** `notification.Store.List`. */
    method ListChannels() returns (r: Option<seq<ChannelRecord>>)
      modifies `clock
      ensures r.Some? ==> Holds(r.value, ChannelName, channels, ChannelIs(cipher, key))
      ensures r.Some? ==> forall n :: n in channels ==> ScanChannel(cipher, key, n, channels[n]).Some?
      ensures Healthy() && (forall n :: n in channels ==> ScanChannel(cipher, key, n, channels[n]).Some?) ==> r.Some?
    {
      hide Holds, ChannelIs, ScanChannel;
      var recs: seq<ChannelRecord> := [];
      ghost var done: map<string, ChannelRow> := map[];
      HoldsNone(ChannelName, ChannelIs(cipher, key));
      var todo := channels.Keys;
      var ok := Exec();
      while ok && exists n :: n in todo
        invariant Healthy() ==> ok
        invariant todo <= channels.Keys && Rest(channels, todo, done)
        invariant Holds(recs, ChannelName, done, ChannelIs(cipher, key))
        invariant forall n :: n in channels && n !in todo ==> ScanChannel(cipher, key, n, channels[n]).Some?
        decreases |todo|
      {
        var n :| n in todo;
        var rec := ScanChannel(cipher, key, n, channels[n]);
        if !rec.Some? {
          return None;
        }
        ScanChannelFits(cipher, key, n, channels[n]);
        HoldsAppend(recs, rec.value, ChannelName, done, ChannelIs(cipher, key), channels[n]);
        recs, done, todo := recs + [rec.value], done[n := channels[n]], todo - {n};
        ok := Exec();
      }
      if !ok {
        return None;
      }
      assert done == channels;
      return Some(recs);
    }

    method ListPortNames(switchId: string) returns (r: Option<map<int, string>>)
      modifies `clock
      ensures r.Some? ==> NamesAre(portNames, switchId, r.value)
      ensures Healthy() ==> r.Some?
    {
      var names: map<int, string> := map[];
      var todo := portNames.Keys;
      var ok := Exec();
      while ok && exists k :: k in todo
        invariant Healthy() ==> ok
        invariant todo <= portNames.Keys
        invariant forall p :: p in names <==> (switchId, p) in portNames && (switchId, p) !in todo
        invariant forall p :: p in names ==> names[p] == portNames[(switchId, p)]
        decreases |todo|
      {
        var k :| k in todo;
        if k.0 == switchId {
          names := names[k.1 := portNames[k]];
        }
        todo := todo - {k};
        ok := Exec();
      }
      return if ok then Some(names) else None;
    }

    /** `GetSetting`: a key that is missing and a read that fails are both errors. */
    method GetSetting(k: string) returns (r: Option<string>)
      modifies `clock
      ensures r.Some? ==> k in settings && r.value == settings[k]
      ensures Healthy() && k in settings ==> r.Some?
    {
      var ok := Exec();
      r := if ok && k in settings then Some(settings[k]) else None;
    }

    /** The settings loop of `Export`: missing and empty values are left out, and so is what cannot be read. */
    method ExportSettings() returns (s: map<string, string>)
      modifies `clock
      ensures PartOf(s, Exported(settings))
      ensures Healthy() ==> s == Exported(settings)
    {
      s := map[];
      for i := 0 to |SETTINGS_KEYS|
        invariant forall k :: k in s ==>
                    k in SETTINGS_KEYS[..i] && k in settings && settings[k] != "" && s[k] == settings[k]
        invariant Healthy() ==> forall k :: k in SETTINGS_KEYS[..i] && k in settings && settings[k] != "" ==> k in s
      {
        var k := SETTINGS_KEYS[i];
        assert SETTINGS_KEYS[..i + 1] == SETTINGS_KEYS[..i] + [k];
        var value := GetSetting(k);
        if value.Some? && value.value != "" {
          s := s[k := value.value];
        }
      }
      assert SETTINGS_KEYS[..|SETTINGS_KEYS|] == SETTINGS_KEYS;
    }

    /** The last loop of `Export`. */
    method ExportPortNames(recs: seq<SwitchRecord>) returns (r: Option<map<string, map<int, string>>>)
      modifies `clock
      ensures r.Some? ==> NamesListed(recs, portNames, r.value)
      ensures Healthy() ==> r.Some?
    {
      hide NamesListed;
      NamesListedNone(portNames);
      var names: map<string, map<int, string>> := map[];
      for i := 0 to |recs|
        invariant NamesListed(recs[..i], portNames, names)
      {
        var own := ListPortNames(recs[i].id);
        if !own.Some? {
          return None;
        }
        NamesListedNext(recs, i, portNames, names, own.value);
        if |own.value| > 0 {
          names := names[recs[i].id := own.value];
        }
      }
      assert recs[..|recs|] == recs;
      return Some(names);
    }

    method Export() returns (r: Option<File>)
      modifies `clock
      ensures r.Some? ==> ExportOf(State(), cipher, key, r.value)
      ensures r.Some? && Healthy() ==> r.value.settings == Exported(settings)
      ensures r.Some? ==> Readable(State(), cipher, key)
      ensures Healthy() && Readable(State(), cipher, key) ==> r.Some?
    {
      hide SwitchFits, ChannelIs, Holds, ScanSwitch, ScanChannel, Exported, NamesAre, PartOf;
      var s := ExportSettings();
      var recs := ListSwitches();
      if !recs.Some? {
        return None;
      }
      var toks := ListTokens();
      if !toks.Some? {
        return None;
      }
      var chans := ListChannels();
      if !chans.Some? {
        return None;
      }
      var names := ExportPortNames(recs.value);
      if !names.Some? {
        return None;
      }
      ListedIds(recs.value, switches, cipher, key);
      return Some(File(VERSION, s, recs.value, toks.value, chans.value, names.value));
    }

    // --------------------------------------------------------- Restore, in parts

    /** The four wipes, in their order. */
    method Wipe() returns (ok: bool)
      modifies `portNames, `switches, `tokens, `channels, `clock
      ensures ok ==> portNames == map[] && switches == map[] && tokens == map[] && channels == map[]
      ensures portNames == map[] || portNames == old(portNames)
      ensures switches == map[] || switches == old(switches)
      ensures tokens == map[] || tokens == old(tokens)
      ensures channels == map[] || channels == old(channels)
      ensures Healthy() ==> ok
      ensures ok <==> UpFor(old(clock), 4)
    {
      ok := Exec();
      if !ok {
        return;
      }
      portNames := map[];
      ok := Exec();
      if !ok {
        return;
      }
      switches := map[];
      ok := Exec();
      if !ok {
        return;
      }
      tokens := map[];
      ok := Exec();
      if !ok {
        return;
      }
      channels := map[];
    }

    method RestoreSettings(f: File) returns (ok: bool)
      modifies `settings, `clock
      ensures SettingsFrame(old(settings), f.settings, settings)
      ensures ok ==> settings == Merged(old(settings), f.settings, SETTINGS_KEYS)
      ensures Healthy() ==> ok
    {
      ok := true;
      for i := 0 to |SETTINGS_KEYS|
        invariant settings == Merged(old(settings), f.settings, SETTINGS_KEYS[..i])
      {
        var k := SETTINGS_KEYS[i];
        assert SETTINGS_KEYS[..i + 1] == SETTINGS_KEYS[..i] + [k];
        if k in f.settings {
          MergeFrame(old(settings), f.settings, i);
          ok := SetSetting(k, f.settings[k]);
          if !ok {
            return;
          }
        }
      }
      MergeFrame(old(settings), f.settings, |SETTINGS_KEYS|);
      assert SETTINGS_KEYS[..|SETTINGS_KEYS|] == SETTINGS_KEYS;
    }

    method RestoreSwitches(recs: seq<SwitchRecord>) returns (ok: bool)
      requires cipher.Sound() && switches == map[]
      modifies `switches, `clock
      ensures ok ==> Holds(recs, SwitchId, switches, SwitchFits(cipher, key))
      ensures From(recs, SwitchId, switches, SwitchFits(cipher, key))
      ensures Healthy() && cipher.Usable(key) && Distinct(recs, SwitchId) ==> ok
    {
      var fits := SwitchFits(cipher, key);
      for i := 0 to |recs|
        invariant Holds(recs[..i], SwitchId, switches, fits)
      {
        hide Holds, From, SwitchFits, Distinct;
        ghost var was := switches;
        if Distinct(recs, SwitchId) {
          FreeIf(recs, i, SwitchId, switches, fits);
        }
        ok := AddSwitch(recs[i]);
        if !ok {
          HoldsIsFrom(recs, i, SwitchId, switches, fits);
          return;
        }
        HoldsNext(recs, i, SwitchId, was, fits, switches[recs[i].id]);
      }
      assert recs[..|recs|] == recs;
      HoldsIsFrom(recs, |recs|, SwitchId, switches, fits);
      ok := true;
    }

    method RestoreTokens(recs: seq<TokenRecord>, now: int) returns (ok: bool)
      requires tokens == map[]
      modifies `tokens, `clock
      ensures ok ==> Holds(recs, TokenId, tokens, TokenFits(now))
      ensures From(recs, TokenId, tokens, TokenFits(now))
      ensures Healthy() && Distinct(recs, TokenId) && Distinct(recs, TokenHash) ==> ok
    {
      var fits := TokenFits(now);
      for i := 0 to |recs|
        invariant Holds(recs[..i], TokenId, tokens, fits)
      {
        hide Holds, From, Distinct, HashTaken, TokenFits;
        ghost var was := tokens;
        TokenFree(recs, i, tokens, now);
        TokenRowFits(recs[i], now);
        ok := InsertToken(recs[i], now);
        if !ok {
          HoldsIsFrom(recs, i, TokenId, tokens, fits);
          return;
        }
        HoldsNext(recs, i, TokenId, was, fits, tokens[recs[i].id]);
      }
      assert recs[..|recs|] == recs;
      HoldsIsFrom(recs, |recs|, TokenId, tokens, fits);
      ok := true;
    }

    method RestoreChannels(recs: seq<ChannelRecord>, uuids: nat -> string, now: int) returns (ok: bool)
      requires cipher.Sound() && channels == map[]
      requires forall i, j :: i != j ==> uuids(i) != uuids(j)
      modifies `channels, `clock
      ensures ok ==> Holds(recs, ChannelName, channels, ChannelFits(cipher, key))
      ensures From(recs, ChannelName, channels, ChannelFits(cipher, key))
      ensures Healthy() && cipher.Usable(key) && Distinct(recs, ChannelName) ==> ok
    {
      var fits := ChannelFits(cipher, key);
      for i := 0 to |recs|
        invariant Holds(recs[..i], ChannelName, channels, fits)
        invariant IdsFrom(channels, uuids, i)
      {
        hide Holds, From, ChannelFits, Distinct, IdTaken, IdsFrom;
        ghost var was := channels;
        IdFree(channels, uuids, i);
        if Distinct(recs, ChannelName) {
          FreeIf(recs, i, ChannelName, channels, fits);
        }
        ok := CreateChannel(recs[i], uuids(i), now);
        if !ok {
          HoldsIsFrom(recs, i, ChannelName, channels, fits);
          return;
        }
        HoldsNext(recs, i, ChannelName, was, fits, channels[recs[i].name]);
        IdsNext(was, uuids, i, recs[i].name, channels[recs[i].name]);
      }
      assert recs[..|recs|] == recs;
      HoldsIsFrom(recs, |recs|, ChannelName, channels, fits);
      ok := true;
    }

    method RestorePortNames(names: map<string, map<int, string>>) returns (ok: bool)
      requires portNames == map[]
      modifies `portNames, `clock
      ensures ok ==> PortRows(names, portNames)
      ensures PortsFrom(names, portNames)
      ensures Healthy() && (enforced ==> forall s :: s in names && names[s] != map[] ==> s in switches) ==> ok
    {
      ok := true;
      var todo := names.Keys;
      while exists s :: s in todo
        invariant todo <= names.Keys
        invariant PortsFrom(names, portNames)
        invariant forall s, p :: s in names && s !in todo && p in names[s] ==> (s, p) in portNames
        decreases |todo|
      {
        var s :| s in todo;
        var ports := names[s].Keys;
        while exists p :: p in ports
          invariant ports <= names[s].Keys
          invariant PortsFrom(names, portNames)
          invariant forall t, p :: t in names && t !in todo && p in names[t] ==> (t, p) in portNames
          invariant forall p :: p in names[s] && p !in ports ==> (s, p) in portNames
          decreases |ports|
        {
          var p :| p in ports;
          ok := SetPortName(s, p, names[s][p]);
          if !ok {
            return;
          }
          ports := ports - {p};
        }
        todo := todo - {s};
      }
    }

    method Restore(f: File, uuids: nat -> string, now: int) returns (ok: bool)
      requires cipher.Sound()
      requires forall i, j :: i != j ==> uuids(i) != uuids(j)
      modifies this
      ensures f.version != VERSION ==> !ok && State() == old(State())
      ensures SettingsFrame(old(settings), f.settings, settings)
      ensures switches == old(switches) || From(f.switches, SwitchId, switches, SwitchFits(cipher, key))
      ensures tokens == old(tokens) || From(f.tokens, TokenId, tokens, TokenFits(now))
      ensures channels == old(channels) || From(f.channels, ChannelName, channels, ChannelFits(cipher, key))
      ensures portNames == old(portNames) || PortsFrom(f.portNames, portNames)
      ensures f.version == VERSION && UpFor(old(clock), 4) ==> RowsFrom(f, State(), cipher, key, now)
      ensures ok ==> Restored(old(State()), f, State(), cipher, key, now)
      ensures f.version == VERSION && Healthy() && cipher.Usable(key) && Importable(f, enforced) ==> ok
    {
      hide Holds, From, SwitchFits, TokenFits, ChannelFits, PortRows, PortsFrom, Distinct, Merged;
      MergeFrame(settings, f.settings, 0);
      SameSettings(settings, f.settings);
      if f.version != VERSION {
        return false;
      }
      ok := Wipe();
      NothingFrom(f, cipher, key, now);
      if !ok {
        return;
      }
      ok := RestoreSettings(f);
      if !ok {
        return;
      }
      ok := RestoreSwitches(f.switches);
      if !ok {
        return;
      }
      ok := RestoreTokens(f.tokens, now);
      if !ok {
        return;
      }
      ok := RestoreChannels(f.channels, uuids, now);
      if !ok {
        return;
      }
      NamedSwitchesExist(f, switches, cipher, key);
      ok := RestorePortNames(f.portNames);
    }
  }

  lemma HoldsAppend<R(!new), W(!new)>(
      recs: seq<R>, rec: R, key: R -> string, rows: map<string, W>, fits: (R, W) -> bool, row: W)
    requires Holds(recs, key, rows, fits) && key(rec) !in rows && fits(rec, row)
    ensures Holds(recs + [rec], key, rows[key(rec) := row], fits)
  {
    var all := recs + [rec];
    assert all[..|recs|] == recs && all[..|recs| + 1] == all;
    HoldsNext(all, |recs|, key, rows, fits, row);
  }

  /** The rows that a loop over a table has visited. */
  ghost predicate Rest<K(!new), W(!new)>(rows: map<K, W>, todo: set<K>, done: map<K, W>) {
    && (forall k :: k in done <==> k in rows && k !in todo)
    && (forall k :: k in done ==> done[k] == rows[k])
  }

  /** `scanSwitch`. */
  function ScanSwitch(c: Cipher, key: string, id: string, row: SwitchRow): Option<SwitchRecord> {
    var password :- c.decrypt(key, row.passwordEnc);
    Some(SwitchRecord(id, row.name, row.ip, row.username, password, row.polling))
  }

  lemma ScanSwitchFits(c: Cipher, key: string, id: string, row: SwitchRow)
    requires ScanSwitch(c, key, id, row).Some?
    ensures var rec := ScanSwitch(c, key, id, row).value; SwitchId(rec) == id && SwitchFits(c, key)(rec, row)
  {
  }

  /** `scanChannel`. */
  function ScanChannel(c: Cipher, key: string, name: string, row: ChannelRow): Option<ChannelRecord> {
    var config :- c.decrypt(key, row.configEnc);
    Some(ChannelRecord(row.id, name, row.provider, config, row.flags, row.createdAt))
  }

  lemma ScanChannelFits(c: Cipher, key: string, name: string, row: ChannelRow)
    requires ScanChannel(c, key, name, row).Some?
    ensures var rec := ScanChannel(c, key, name, row).value; ChannelName(rec) == name && ChannelIs(c, key)(rec, row)
  {
    assert ChannelFits(c, key)(ScanChannel(c, key, name, row).value, row);
  }

  /** The exported settings: the listed keys with a value. */
  function Exported(settings: map<string, string>): map<string, string> {
    map k | k in settings && k in SETTINGS_KEYS && settings[k] != "" :: settings[k]
  }

  /** The names that a table holds for one switch. */
  ghost predicate NamesAre(rows: map<(string, int), string>, switchId: string, names: map<int, string>) {
    forall p :: (p in names <==> (switchId, p) in rows) && (p in names ==> names[p] == rows[(switchId, p)])
  }

  predicate TokenIs(rec: TokenRecord, row: TokenRow) {
    row == TokenRow(rec.name, rec.hash, rec.expiry, rec.createdAt)
  }

  function ChannelIs(c: Cipher, key: string): (ChannelRecord, ChannelRow) -> bool {
    (rec: ChannelRecord, row: ChannelRow) =>
      ChannelFits(c, key)(rec, row) && rec.id == row.id && rec.createdAt == row.createdAt
  }

  ghost predicate PartOf(s: map<string, string>, t: map<string, string>) {
    forall k :: k in s ==> k in t && s[k] == t[k]
  }

  /** Every password and every channel's configuration decrypts. */
  ghost predicate Readable(t: Tables, c: Cipher, key: string) {
    && (forall id :: id in t.switches ==> ScanSwitch(c, key, id, t.switches[id]).Some?)
    && (forall n :: n in t.channels ==> ScanChannel(c, key, n, t.channels[n]).Some?)
  }

  ghost predicate Lists(recs: seq<SwitchRecord>, s: string) {
    exists j :: 0 <= j < |recs| && recs[j].id == s
  }

  /** The names of the listed switches, those without names left out. */
  ghost predicate NamesListed(
      recs: seq<SwitchRecord>, rows: map<(string, int), string>, names: map<string, map<int, string>>) {
    && (forall s :: s in names ==> Lists(recs, s) && names[s] != map[])
    && (forall s :: Lists(recs, s) ==> NamesAre(rows, s, if s in names then names[s] else map[]))
  }

  lemma NamesListedNone(rows: map<(string, int), string>)
    ensures NamesListed([], rows, map[])
  {
  }

  lemma ListsNext(recs: seq<SwitchRecord>, i: nat, s: string)
    requires i < |recs|
    ensures Lists(recs[..i + 1], s) <==> Lists(recs[..i], s) || s == recs[i].id
  {
    if Lists(recs[..i], s) {
      var j :| 0 <= j < i && recs[..i][j].id == s;
      assert recs[..i + 1][j].id == s;
    }
    if s == recs[i].id {
      assert recs[..i + 1][i].id == s;
    }
    if Lists(recs[..i + 1], s) {
      var j :| 0 <= j < i + 1 && recs[..i + 1][j].id == s;
      assert j < i ==> recs[..i][j].id == s;
    }
  }

  lemma NamesListedNext(recs: seq<SwitchRecord>, i: nat, rows: map<(string, int), string>,
                        names: map<string, map<int, string>>, own: map<int, string>)
    requires i < |recs| && NamesListed(recs[..i], rows, names) && NamesAre(rows, recs[i].id, own)
    ensures NamesListed(recs[..i + 1], rows, if |own| > 0 then names[recs[i].id := own] else names)
  {
    hide NamesAre, Lists;
    var names1 := if |own| > 0 then names[recs[i].id := own] else names;
    forall s ensures Lists(recs[..i + 1], s) <==> Lists(recs[..i], s) || s == recs[i].id {
      ListsNext(recs, i, s);
    }
    if |own| == 0 && recs[i].id in names {
      NamesUnique(rows, recs[i].id, own, names[recs[i].id]);
    }
    assert |own| == 0 ==> own == map[];
  }

  lemma NamesUnique(rows: map<(string, int), string>, s: string, x: map<int, string>, y: map<int, string>)
    requires NamesAre(rows, s, x) && NamesAre(rows, s, y)
    ensures x == y
  {
    forall p ensures (p in x <==> p in y) && (p in x ==> x[p] == y[p]) {
      assert p in x <==> (s, p) in rows;
      assert p in y <==> (s, p) in rows;
    }
  }

  /** `f` is a backup of `t`: every row once, in plain text, in some order, and settings that could be read. */
  ghost predicate ExportOf(t: Tables, c: Cipher, key: string, f: File) {
    && f.version == VERSION
    && PartOf(f.settings, Exported(t.settings))
    && Holds(f.switches, SwitchId, t.switches, SwitchFits(c, key))
    && Holds(f.tokens, TokenId, t.tokens, TokenIs)
    && Holds(f.channels, ChannelName, t.channels, ChannelIs(c, key))
    && (forall s :: s in f.portNames ==> s in t.switches && f.portNames[s] != map[])
    && (forall s :: s in t.switches ==> NamesAre(t.portNames, s, if s in f.portNames then f.portNames[s] else map[]))
  }

  lemma ListedIds(recs: seq<SwitchRecord>, rows: map<string, SwitchRow>, c: Cipher, key: string)
    requires Holds(recs, SwitchId, rows, SwitchFits(c, key))
    ensures forall id :: id in rows <==> exists j :: 0 <= j < |recs| && recs[j].id == id
  {
    forall id ensures id in rows <==> exists j :: 0 <= j < |recs| && recs[j].id == id {
      if id in rows {
        var j :| 0 <= j < |recs| && SwitchId(recs[j]) == id;
        assert recs[j].id == id;
      }
    }
  }

  /** Every row of the four wiped tables comes from the file. */
  ghost predicate RowsFrom(f: File, t: Tables, c: Cipher, key: string, now: int) {
    && From(f.switches, SwitchId, t.switches, SwitchFits(c, key))
    && From(f.tokens, TokenId, t.tokens, TokenFits(now))
    && From(f.channels, ChannelName, t.channels, ChannelFits(c, key))
    && PortsFrom(f.portNames, t.portNames)
  }

  /** What a successful restore of `f` makes of the tables `was`. */
  ghost predicate Restored(was: Tables, f: File, t: Tables, c: Cipher, key: string, now: int) {
    && t.settings == Merged(was.settings, f.settings, SETTINGS_KEYS)
    && Holds(f.switches, SwitchId, t.switches, SwitchFits(c, key))
    && Holds(f.tokens, TokenId, t.tokens, TokenFits(now))
    && Holds(f.channels, ChannelName, t.channels, ChannelFits(c, key))
    && PortRows(f.portNames, t.portNames)
  }

  lemma NothingFrom(f: File, c: Cipher, key: string, now: int)
    ensures From(f.switches, SwitchId, map[], SwitchFits(c, key))
    ensures From(f.tokens, TokenId, map[], TokenFits(now))
    ensures From(f.channels, ChannelName, map[], ChannelFits(c, key))
    ensures PortsFrom(f.portNames, map[])
  {
  }

  lemma SameSettings(settings: map<string, string>, from: map<string, string>)
    ensures SettingsFrame(settings, from, settings)
  {
  }

  lemma NamedSwitchesExist(f: File, rows: map<string, SwitchRow>, c: Cipher, key: string)
    requires Holds(f.switches, SwitchId, rows, SwitchFits(c, key))
    ensures Importable(f, true) ==> forall s :: s in f.portNames && f.portNames[s] != map[] ==> s in rows
  {
    if Importable(f, true) {
      forall s | s in f.portNames && f.portNames[s] != map[] ensures s in rows {
        var rec :| rec in f.switches && rec.id == s;
        assert SwitchId(rec) in rows;
      }
    }
  }

  /** The settings after the listed keys of the file have been written. */
  function Merged(settings: map<string, string>, from: map<string, string>, keys: seq<string>): map<string, string> {
    if keys == [] then settings
    else
      var k, m := keys[|keys| - 1], Merged(settings, from, keys[..|keys| - 1]);
      if k in from then m[k := from[k]] else m
  }

  lemma {:induction false} MergedIs(
      settings: map<string, string>, from: map<string, string>, keys: seq<string>, k: string)
    ensures k in Merged(settings, from, keys) <==> k in settings || (k in keys && k in from)
    ensures k in Merged(settings, from, keys) ==>
              Merged(settings, from, keys)[k] == if k in keys && k in from then from[k] else settings[k]
  {
    if keys != [] {
      MergedIs(settings, from, keys[..|keys| - 1], k);
      assert keys == keys[..|keys| - 1] + [keys[|keys| - 1]];
    }
  }

  /** What a merge may change. */
  ghost predicate SettingsFrame(was: map<string, string>, from: map<string, string>, now: map<string, string>) {
    && (forall k :: k !in SETTINGS_KEYS ==> (k in now <==> k in was))
    && (forall k :: k in was ==> k in now)
    && (forall k :: k in now ==>
          (k in was && now[k] == was[k]) || (k in SETTINGS_KEYS && k in from && now[k] == from[k]))
  }

  lemma MergeFrame(was: map<string, string>, from: map<string, string>, n: nat)
    requires n <= |SETTINGS_KEYS|
    ensures SettingsFrame(was, from, Merged(was, from, SETTINGS_KEYS[..n]))
  {
    forall k
      ensures k in Merged(was, from, SETTINGS_KEYS[..n]) <==> k in was || (k in SETTINGS_KEYS[..n] && k in from)
    {
      MergedIs(was, from, SETTINGS_KEYS[..n], k);
    }
    forall k | k in Merged(was, from, SETTINGS_KEYS[..n])
      ensures Merged(was, from, SETTINGS_KEYS[..n])[k]
              == if k in SETTINGS_KEYS[..n] && k in from then from[k] else was[k]
    {
      MergedIs(was, from, SETTINGS_KEYS[..n], k);
    }
    assert forall k :: k in SETTINGS_KEYS[..n] ==> k in SETTINGS_KEYS;
  }

  predicate IdTaken(rows: map<string, ChannelRow>, id: string) {
    exists n :: n in rows && rows[n].id == id
  }

  /** Every row has one of the first `k` ids. */
  ghost predicate IdsFrom(rows: map<string, ChannelRow>, uuids: nat -> string, k: nat) {
    forall n :: n in rows ==> exists j: nat :: j < k && rows[n].id == uuids(j)
  }

  lemma IdFree(rows: map<string, ChannelRow>, uuids: nat -> string, k: nat)
    requires IdsFrom(rows, uuids, k) && forall i, j :: i != j ==> uuids(i) != uuids(j)
    ensures !IdTaken(rows, uuids(k))
  {
  }

  lemma IdsNext(rows: map<string, ChannelRow>, uuids: nat -> string, k: nat, name: string, row: ChannelRow)
    requires IdsFrom(rows, uuids, k) && row.id == uuids(k)
    ensures IdsFrom(rows[name := row], uuids, k + 1)
  {
    var rows1 := rows[name := row];
    forall n | n in rows1 ensures exists j: nat :: j < k + 1 && rows1[n].id == uuids(j) {
      if n == name {
        assert rows1[n].id == uuids(k);
      } else {
        var j: nat :| j < k && rows[n].id == uuids(j);
        assert j < k + 1 && rows1[n].id == uuids(j);
      }
    }
  }

  predicate HashTaken(rows: map<string, TokenRow>, hash: string) {
    exists id :: id in rows && rows[id].hash == hash
  }

  lemma TokenFree(recs: seq<TokenRecord>, n: nat, rows: map<string, TokenRow>, now: int)
    requires n < |recs| && Holds(recs[..n], TokenId, rows, TokenFits(now))
    ensures Distinct(recs, TokenId) ==> recs[n].id !in rows
    ensures Distinct(recs, TokenHash) ==> !HashTaken(rows, recs[n].hash)
  {
    hide Holds, Distinct;
    if Distinct(recs, TokenId) {
      FreeIf(recs, n, TokenId, rows, TokenFits(now));
    }
    if Distinct(recs, TokenHash) {
      assert recs[..n][..n] == recs[..n];
      HoldsIsFrom(recs[..n], n, TokenId, rows, TokenFits(now));
      HashFree(recs, n, rows, now);
    }
  }

  lemma TokenRowFits(rec: TokenRecord, now: int)
    ensures TokenFits(now)(rec, TokenRow(rec.name, rec.hash, rec.expiry, Created(rec.createdAt, now)))
  {
  }

  lemma HashFree(recs: seq<TokenRecord>, n: nat, rows: map<string, TokenRow>, now: int)
    requires n < |recs| && From(recs[..n], TokenId, rows, TokenFits(now)) && Distinct(recs, TokenHash)
    ensures forall id :: id in rows ==> rows[id].hash != recs[n].hash
  {
    assert forall i :: 0 <= i < n ==> recs[..n][i] == recs[i] && TokenHash(recs[i]) != TokenHash(recs[n]);
  }
}
