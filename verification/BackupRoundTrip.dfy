/** Export, restore elsewhere, export again. */
module BackupRoundTrip {
  import opened Backup
  import opened Wrappers

  // ------------------------------------------------- lists without duplicates

  ghost predicate NoDuplicates<T>(s: seq<T>) {
    forall i, j :: 0 <= i < j < |s| ==> s[i] != s[j]
  }

  lemma {:induction false} OnceEach<T>(s: seq<T>, x: T)
    requires NoDuplicates(s)
    ensures multiset(s)[x] == if x in s then 1 else 0
  {
    if s != [] {
      var s0, y := s[..|s| - 1], s[|s| - 1];
      assert s == s0 + [y];
      assert y !in s0;
      OnceEach(s0, x);
    }
  }

  /** Such lists with the same elements are equal as multisets. */
  lemma SameBag<T>(s: seq<T>, t: seq<T>)
    requires NoDuplicates(s) && NoDuplicates(t) && forall x :: x in s <==> x in t
    ensures multiset(s) == multiset(t)
  {
    forall x: T ensures multiset(s)[x] == multiset(t)[x] {
      OnceEach(s, x);
      OnceEach(t, x);
    }
  }

  // ------------------------------------------- what a backup keeps of an entry


  /** A token with the creation time it has after a restore. */
  function Stamped(now: int): TokenRecord -> TokenRecord {
    (rec: TokenRecord) => rec.(createdAt := Created(rec.createdAt, now))
  }

  /** A channel without its id and its time. */
  function Body(rec: ChannelRecord): ChannelRecord {
    rec.(id := "", createdAt := 0)
  }

  function Each<R>(recs: seq<R>, h: R -> R): (r: seq<R>)
    ensures |r| == |recs| && forall i :: 0 <= i < |recs| ==> r[i] == h(recs[i])
  {
    seq(|recs|, i requires 0 <= i < |recs| => h(recs[i]))
  }

  /** Two lists that describe the same table agree, entry by entry, on what both determine. */
  lemma SameTable<R(!new), W(!new)>(f: seq<R>, g: seq<R>, key: R -> string, rows: map<string, W>,
                                    fitsF: (R, W) -> bool, fitsG: (R, W) -> bool, hF: R -> R, hG: R -> R)
    requires Holds(f, key, rows, fitsF) && Holds(g, key, rows, fitsG)
    requires forall x, y, row :: key(x) == key(y) && fitsF(x, row) && fitsG(y, row) ==> hF(x) == hG(y)
    requires forall x :: key(hF(x)) == key(x) && key(hG(x)) == key(x)
    ensures multiset(Each(f, hF)) == multiset(Each(g, hG))
  {
    var s, t := Each(f, hF), Each(g, hG);
    assert NoDuplicates(s) by {
      assert forall i :: 0 <= i < |s| ==> key(s[i]) == key(f[i]);
    }
    assert NoDuplicates(t) by {
      assert forall i :: 0 <= i < |t| ==> key(t[i]) == key(g[i]);
    }
    forall x: R ensures x in s <==> x in t {
      if x in s {
        var i :| 0 <= i < |s| && s[i] == x;
        assert key(f[i]) in rows;
        var j :| 0 <= j < |g| && key(g[j]) == key(f[i]);
        assert hF(f[i]) == hG(g[j]);
        assert t[j] == x;
      }
      if x in t {
        var j :| 0 <= j < |t| && t[j] == x;
        assert key(g[j]) in rows;
        var i :| 0 <= i < |f| && key(f[i]) == key(g[j]);
        assert hF(f[i]) == hG(g[j]);
        assert s[i] == x;
      }
    }
    SameBag(s, t);
  }

  function Whole<R>(rec: R): R {
    rec
  }

  lemma EachWhole<R>(recs: seq<R>)
    ensures Each(recs, Whole) == recs
  {
  }

  // ----------------------------------------------------------------- results

  /** An export of tables whose token hashes are unique, as the schema demands, restores without any violation. */
  lemma ExportIsImportable(t: Tables, c: Cipher, key: string, f: File)
    requires ExportOf(t, c, key, f)
    requires forall i, j :: i in t.tokens && j in t.tokens && i != j ==> t.tokens[i].hash != t.tokens[j].hash
    ensures Importable(f, true)
  {
    forall i, j | 0 <= i < j < |f.tokens| ensures TokenHash(f.tokens[i]) != TokenHash(f.tokens[j]) {
      assert TokenId(f.tokens[i]) != TokenId(f.tokens[j]);
      assert TokenIs(f.tokens[i], t.tokens[TokenId(f.tokens[i])]);
      assert TokenIs(f.tokens[j], t.tokens[TokenId(f.tokens[j])]);
    }
    forall s | s in f.portNames && f.portNames[s] != map[] ensures exists rec :: rec in f.switches && rec.id == s {
      assert s in t.switches;
      var i :| 0 <= i < |f.switches| && SwitchId(f.switches[i]) == s;
      assert f.switches[i] in f.switches;
    }
  }

  lemma SwitchDetermined(c: Cipher, key: string, x: SwitchRecord, y: SwitchRecord, row: SwitchRow)
    requires SwitchId(x) == SwitchId(y) && SwitchFits(c, key)(x, row) && SwitchFits(c, key)(y, row)
    ensures x == y
  {
  }

  lemma SwitchesBack(f: File, g: File, b: Tables, c: Cipher, key: string)
    requires Holds(f.switches, SwitchId, b.switches, SwitchFits(c, key))
    requires Holds(g.switches, SwitchId, b.switches, SwitchFits(c, key))
    ensures multiset(g.switches) == multiset(f.switches)
  {
    hide Holds, SwitchFits, SwitchId, Each;
    var fits := SwitchFits(c, key);
    forall x, y, row | SwitchId(x) == SwitchId(y) && fits(x, row) && fits(y, row)
      ensures Whole<SwitchRecord>(x) == Whole<SwitchRecord>(y)
    {
      SwitchDetermined(c, key, x, y, row);
    }
    SameTable(f.switches, g.switches, SwitchId, b.switches, fits, fits, Whole, Whole);
    EachWhole(f.switches);
    EachWhole(g.switches);
  }

  lemma TokenDetermined(now: int, x: TokenRecord, y: TokenRecord, row: TokenRow)
    requires TokenId(x) == TokenId(y) && TokenFits(now)(x, row) && TokenIs(y, row)
    ensures Stamped(now)(x) == y
  {
  }

  lemma TokensBack(f: File, g: File, b: Tables, now: int)
    requires Holds(f.tokens, TokenId, b.tokens, TokenFits(now)) && Holds(g.tokens, TokenId, b.tokens, TokenIs)
    ensures multiset(g.tokens) == multiset(Each(f.tokens, Stamped(now)))
  {
    assert forall x :: TokenId(Stamped(now)(x)) == TokenId(x) && TokenId(Whole(x)) == TokenId(x);
    hide Holds, TokenFits, TokenId, TokenIs, Each, Stamped;
    forall x, y, row | TokenId(x) == TokenId(y) && TokenFits(now)(x, row) && TokenIs(y, row)
      ensures Stamped(now)(x) == Whole<TokenRecord>(y)
    {
      TokenDetermined(now, x, y, row);
    }
    SameTable(f.tokens, g.tokens, TokenId, b.tokens, TokenFits(now), TokenIs, Stamped(now), Whole);
    EachWhole(g.tokens);
  }

  lemma ChannelsBack(f: File, g: File, b: Tables, c: Cipher, key: string)
    requires Holds(f.channels, ChannelName, b.channels, ChannelFits(c, key))
    requires Holds(g.channels, ChannelName, b.channels, ChannelIs(c, key))
    ensures multiset(Each(g.channels, Body)) == multiset(Each(f.channels, Body))
  {
    SameTable(f.channels, g.channels, ChannelName, b.channels, ChannelFits(c, key), ChannelIs(c, key), Body, Body);
  }

  /** A restored server has the switches of the backup's source. */
  lemma SameSwitches(a: Tables, f: File, b: Tables, c: Cipher, ka: string, kb: string, s: string)
    requires Holds(f.switches, SwitchId, a.switches, SwitchFits(c, ka))
    requires Holds(f.switches, SwitchId, b.switches, SwitchFits(c, kb))
    ensures s in b.switches <==> s in a.switches
  {
    hide SwitchFits;
    if s in a.switches {
      var i :| 0 <= i < |f.switches| && SwitchId(f.switches[i]) == s;
    }
    if s in b.switches {
      var i :| 0 <= i < |f.switches| && SwitchId(f.switches[i]) == s;
    }
  }

  function NamesIn(names: map<string, map<int, string>>, s: string): map<int, string> {
    if s in names then names[s] else map[]
  }

  lemma NamesBack(a: Tables, f: File, b: Tables, c: Cipher, ka: string, kb: string, g: File)
    requires ExportOf(a, c, ka, f) && PortRows(f.portNames, b.portNames)
    requires Holds(f.switches, SwitchId, b.switches, SwitchFits(c, kb)) && ExportOf(b, c, kb, g)
    ensures g.portNames == f.portNames
  {
    hide Holds, SwitchFits, NamesAre, PortRows, ChannelIs, Exported;
    forall s ensures s in f.portNames ==> s in b.switches {
      SameSwitches(a, f, b, c, ka, kb, s);
    }
    forall s | s in b.switches ensures NamesIn(g.portNames, s) == NamesIn(f.portNames, s) {
      SameNames(b.portNames, s, NamesIn(g.portNames, s), NamesIn(f.portNames, s), f.portNames);
    }
    assert forall s :: s in g.portNames ==> NamesIn(f.portNames, s) != map[];
    assert forall s :: s in f.portNames ==> NamesIn(g.portNames, s) != map[];
  }

  lemma SameNames(rows: map<(string, int), string>, s: string, x: map<int, string>, y: map<int, string>,
                  names: map<string, map<int, string>>)
    requires NamesAre(rows, s, x) && PortRows(names, rows) && y == NamesIn(names, s)
    ensures x == y
  {
    forall p ensures (p in x <==> p in y) && (p in x ==> x[p] == y[p]) {
      assert (s, p) in rows ==> (s, p).0 in names;
    }
  }

  /** Settings as a backup may hold them. */
  ghost predicate Clean(from: map<string, string>) {
    forall k :: k in from ==> k in SETTINGS_KEYS && from[k] != ""
  }

  /** The settings come back, under those the target had and the backup lacks. */
  lemma SettingsBack(from: map<string, string>, b0: map<string, string>, k: string)
    requires Clean(from)
    ensures var back := Exported(Merged(b0, from, SETTINGS_KEYS));
            && (k in back <==> k in from || k in Exported(b0))
            && (k in back ==> back[k] == if k in from then from[k] else b0[k])
  {
    MergedIs(b0, from, SETTINGS_KEYS, k);
  }

  lemma SettingsBackIff(from: map<string, string>, b0: map<string, string>)
    requires Clean(from)
    ensures Exported(Merged(b0, from, SETTINGS_KEYS)) == from <==> forall k :: k in Exported(b0) ==> k in from
  {
    var back := Exported(Merged(b0, from, SETTINGS_KEYS));
    forall k ensures (k in back <==> k in from || k in Exported(b0))
                     && (k in back ==> back[k] == if k in from then from[k] else b0[k])
    {
      SettingsBack(from, b0, k);
    }
    hide Merged, Exported;
    if back == from {
      assert forall k :: k in Exported(b0) ==> k in back;
    }
  }

  /** What a re-export `g` of a target that had the settings `b0` has in common with the backup `f`. */
  ghost predicate Returned(f: File, b0: map<string, string>, g: File, now: int) {
    && multiset(g.switches) == multiset(f.switches)
    && g.portNames == f.portNames
    && multiset(g.tokens) == multiset(Each(f.tokens, Stamped(now)))
    && multiset(Each(g.channels, Body)) == multiset(Each(f.channels, Body))
    && (g.settings == f.settings <==> forall k :: k in Exported(b0) ==> k in f.settings)
  }

  /**
    * Backup round trip, for every source, every target and any two keys: exporting what a restore made
    * gives the same switches with their passwords and the same port names; the same tokens, with a time
    * for those created in second 0; the same channels up to ids and times; and the same settings exactly
    * if the target had no exported setting that the backup lacks.
    */
  lemma RoundTrip(a: Tables, ka: string, f: File, b0: Tables, b: Tables, kb: string, g: File, c: Cipher, now: int)
    requires ExportOf(a, c, ka, f) && Restored(b0, f, b, c, kb, now)
    requires ExportOf(b, c, kb, g) && g.settings == Exported(b.settings)
    ensures Returned(f, b0.settings, g, now)
  {
    assert Clean(f.settings);
    hide Holds, SwitchFits, TokenFits, ChannelFits, ChannelIs, PortRows, NamesAre, Merged, Exported;
    SwitchesBack(f, g, b, c, kb);
    TokensBack(f, g, b, now);
    ChannelsBack(f, g, b, c, kb);
    NamesBack(a, f, b, c, ka, kb, g);
    SettingsBackIff(f.settings, b0.settings);
  }

  /** Everything a restore wrote decrypts. */
  lemma RestoredIsReadable(b0: Tables, f: File, b: Tables, c: Cipher, key: string, now: int)
    requires Restored(b0, f, b, c, key, now)
    ensures Readable(b, c, key)
  {
    forall id | id in b.switches ensures ScanSwitch(c, key, id, b.switches[id]).Some? {
      var i :| 0 <= i < |f.switches| && SwitchId(f.switches[i]) == id;
      assert SwitchFits(c, key)(f.switches[i], b.switches[id]);
    }
    forall n | n in b.channels ensures ScanChannel(c, key, n, b.channels[n]).Some? {
      var i :| 0 <= i < |f.channels| && ChannelName(f.channels[i]) == n;
      assert ChannelFits(c, key)(f.channels[i], b.channels[n]);
    }
  }

  /**
    * The whole way from one server to another.  If the source exports at all, the restore into a healthy
    * target with a usable key succeeds, the target exports, and what it exports is what came.
    */
  method Move(source: Database, target: Database, uuids: nat -> string, now: int)
    returns (f: Option<File>, ok: bool, g: Option<File>)
    requires source != target && source.cipher == target.cipher && target.cipher.Sound()
    requires target.Healthy() && target.cipher.Usable(target.key)
    requires forall i, j :: i != j ==> uuids(i) != uuids(j)
    requires forall i, j :: i in source.tokens && j in source.tokens && i != j ==>
               source.tokens[i].hash != source.tokens[j].hash
    modifies source`clock, target
    ensures source.State() == old(source.State())
    ensures f.Some? <==> ok
    ensures f.Some? ==> ExportOf(source.State(), source.cipher, source.key, f.value)
    ensures f.Some? ==> g.Some? && Returned(f.value, old(target.settings), g.value, now)
    ensures source.Healthy() && Readable(source.State(), source.cipher, source.key) ==> f.Some?
  {
    hide ExportOf, Restored, Returned, Importable, Readable;
    ok, g := false, None;
    f := source.Export();
    if !f.Some? {
      return;
    }
    ghost var a, b0 := source.State(), target.State();
    ImportableHere(a, source.cipher, source.key, f.value, target.enforced);
    VersionOf(a, source.cipher, source.key, f.value);
    ok := target.Restore(f.value, uuids, now);
    RestoredIsReadable(b0, f.value, target.State(), target.cipher, target.key, now);
    g := target.Export();
    RoundTrip(a, source.key, f.value, b0, target.State(), target.key, g.value, target.cipher, now);
  }

  lemma VersionOf(t: Tables, c: Cipher, key: string, f: File)
    requires ExportOf(t, c, key, f)
    ensures f.version == VERSION
  {
  }

  lemma ImportableHere(t: Tables, c: Cipher, key: string, f: File, enforced: bool)
    requires ExportOf(t, c, key, f)
    requires forall i, j :: i in t.tokens && j in t.tokens && i != j ==> t.tokens[i].hash != t.tokens[j].hash
    ensures Importable(f, enforced)
  {
    hide ExportOf;
    ExportIsImportable(t, c, key, f);
  }

  /** A source without a setting does not clear the target's, and leaves its value as it is. */
  lemma TargetSettingSurvives(target: map<string, string>, file: map<string, string>, k: string)
    requires k in SETTINGS_KEYS && k in target && target[k] != "" && k !in file
    ensures k in Exported(Merged(target, file, SETTINGS_KEYS))
    ensures Exported(Merged(target, file, SETTINGS_KEYS))[k] == target[k]
  {
    MergedIs(target, file, SETTINGS_KEYS, k);
  }

  /** So a server that takes over an installation without a password keeps its own. */
  lemma TargetPasswordSurvives(hash: string)
    requires hash != ""
    ensures var target := map["auth_password_hash" := hash];
            Exported(Merged(target, map[], SETTINGS_KEYS)) == target
  {
    var target := map["auth_password_hash" := hash];
    assert SETTINGS_KEYS[2] == "auth_password_hash";
    forall k ensures k in Merged(target, map[], SETTINGS_KEYS) <==> k in target {
      MergedIs(target, map[], SETTINGS_KEYS, k);
    }
    TargetSettingSurvives(target, map[], "auth_password_hash");
  }
}
