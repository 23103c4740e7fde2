/** `read_config` of src/smax_daemon/example_smax_daemon.py with the two JSON file reads taken
    out: the daemon's own configuration and the optional site-wide `smax_config` are inputs.
    The site-wide settings override the local ones, except that a local `smax_table` is placed
    under the site-wide root table instead of being replaced by it. */
module SmaxConfig {
  import opened Wrappers
  import opened ConfigTree
  import Dicts
  import Strings

  /** The settings the service reads once the configuration is merged. */
  datatype Settings = Settings(
    server: Value,
    port: Value,
    db: Value,
    table: string,
    key: string,
    controlKeys: Dicts.Dict<Value>,
    interval: int)

  predicate IsStr(v: Value) {
    v.Leaf? && v.scalar.Str?
  }

  /** Merge the site-wide dict `global` (absent when no site-wide file is given) into the local
      `smax_config` dict. */
  function MergeSmaxConfig(local: Dicts.Dict<Value>, global: Option<Dicts.Dict<Value>>): (r: Result<Dicts.Dict<Value>, Fault>)
    ensures global.None? ==> r == Ok(local)
    ensures global.Some? && Dicts.HasKey(local, "smax_table") && !Dicts.HasKey(global.value, "smax_table")
      ==> r == Err(KeyError("smax_table"))
    ensures r.Err? ==> global.Some? && Dicts.HasKey(local, "smax_table")
  {
    if global.None? then Ok(local)
    else
      var g := global.value;
      if !Dicts.HasKey(local, "smax_table") then Ok(Dicts.Update(local, g))
      else if !Dicts.HasKey(g, "smax_table") then Err(KeyError("smax_table"))
      else
        var root := Dicts.Get(g, "smax_table").value;
        var table := Dicts.Get(local, "smax_table").value;
        if !(IsStr(root) && IsStr(table)) then Err(TypeError("sequence item: expected str instance"))
        else
          var joined := Dicts.Insert(local, "smax_table", Leaf(Str(Strings.Join([root.scalar.s, table.scalar.s], ':'))));
          Ok(Dicts.Update(joined, Dicts.Delete(g, "smax_table")))
  }

  /** A local table goes under the site-wide root: the merged table is `root:table`, and the
      site-wide entry, removed first, cannot overwrite the join. */
  lemma MergeJoinsTable(local: Dicts.Dict<Value>, global: Dicts.Dict<Value>, root: string, table: string)
    requires Dicts.Get(local, "smax_table") == Some(Leaf(Str(table)))
    requires Dicts.Get(global, "smax_table") == Some(Leaf(Str(root)))
    ensures MergeSmaxConfig(local, Some(global)).Ok?
    ensures Dicts.Get(MergeSmaxConfig(local, Some(global)).value, "smax_table") == Some(Leaf(Str(root + ":" + table)))
  {
    var joined := Dicts.Insert(local, "smax_table", Leaf(Str(Strings.Join([root, table], ':'))));
    Dicts.UpdateGet(joined, Dicts.Delete(global, "smax_table"), "smax_table");
    assert Strings.Join([root, table], ':') == root + ":" + table;
  }

  /** Every site-wide key other than the table overrides the local value, and every key only the
      local dict has survives. Without a local table, the site-wide table is copied in too. */
  lemma MergeOverrides(local: Dicts.Dict<Value>, global: Dicts.Dict<Value>, k: string)
    requires Dicts.UniqueKeys(global)
    requires MergeSmaxConfig(local, Some(global)).Ok?
    requires k != "smax_table" || !Dicts.HasKey(local, "smax_table")
    ensures Dicts.Get(MergeSmaxConfig(local, Some(global)).value, k)
      == (if Dicts.HasKey(global, k) then Dicts.Get(global, k) else Dicts.Get(local, k))
  {
    if !Dicts.HasKey(local, "smax_table") {
      Dicts.UpdateGet(local, global, k);
      Dicts.LastValueOfDict(global, k);
    } else {
      var root := Dicts.Get(global, "smax_table").value;
      var table := Dicts.Get(local, "smax_table").value;
      var joined := Dicts.Insert(local, "smax_table", Leaf(Str(Strings.Join([root.scalar.s, table.scalar.s], ':'))));
      var rest := Dicts.Delete(global, "smax_table");
      Dicts.UpdateGet(joined, rest, k);
      DeleteUnique(global, "smax_table");
      Dicts.LastValueOfDict(rest, k);
    }
  }

  /** Deleting a key keeps a dict's keys unique. */
  lemma {:induction false} DeleteUnique<V>(d: Dicts.Dict<V>, k: string)
    requires Dicts.UniqueKeys(d)
    ensures Dicts.UniqueKeys(Dicts.Delete(d, k))
  {
    if |d| > 0 {
      DeleteUnique(d[1..], k);
      if d[0].0 != k {
        assert Dicts.Get(Dicts.Delete(d[1..], k), d[0].0) == Dicts.Get(d[1..], d[0].0);
      }
    }
  }

  /** A required entry: a missing key raises `KeyError`. */
  function Require(d: Dicts.Dict<Value>, k: string): (r: Result<Value, Fault>)
    ensures r.Ok? <==> Dicts.HasKey(d, k)
    ensures r.Ok? ==> Dicts.Get(d, k) == Some(r.value)
    ensures r.Err? ==> r.error == KeyError(k)
  {
    match Dicts.Get(d, k)
    case Some(v) => Ok(v)
    case None => Err(KeyError(k))
  }

  /** `read_config`: merge, then read the settings in the order the source reads them. */
  function ReadConfig(config: Dicts.Dict<Value>, global: Option<Dicts.Dict<Value>>): (r: Result<Settings, Fault>)
    ensures r.Ok? ==> Dicts.HasKey(config, "smax_config") && Dicts.HasKey(config, "logging_interval")
    ensures r.Ok? ==> Dicts.Get(config, "logging_interval") == Some(Leaf(Num(r.value.interval)))
    ensures r.Ok? ==> (
      var smax := Dicts.Get(config, "smax_config");
      smax.Some? && smax.value.Map? && MergeSmaxConfig(smax.value.entries, global).Ok?
      && Dicts.Get(MergeSmaxConfig(smax.value.entries, global).value, "smax_table") == Some(Leaf(Str(r.value.table))))
    ensures r.Ok? ==> Dicts.Get(MergeSmaxConfig(Dicts.Get(config, "smax_config").value.entries, global).value,
      "smax_control_keys") == Some(Map(r.value.controlKeys))
    ensures r.Ok? ==> (
      Dicts.Get(MergeSmaxConfig(Dicts.Get(config, "smax_config").value.entries, global).value, "smax_key")
        == Some(Leaf(Str(r.value.key))))
    ensures !Dicts.HasKey(config, "smax_config") ==> r == Err(KeyError("smax_config"))
  {
    var smax :- Require(config, "smax_config");
    if !smax.Map? then Err(TypeError("smax_config is not a dict"))
    else
      var merged :- MergeSmaxConfig(smax.entries, global);
      var server :- Require(merged, "smax_server");
      var port :- Require(merged, "smax_port");
      var db :- Require(merged, "smax_db");
      var table :- Require(merged, "smax_table");
      var key :- Require(merged, "smax_key");
      var controls :- Require(merged, "smax_control_keys");
      if !controls.Map? then Err(AttributeError("keys"))
      else
        var interval :- Require(config, "logging_interval");
        if !IsStr(table) || !IsStr(key) || !interval.Leaf? || !interval.scalar.Num? then
          Err(TypeError("unexpected setting type"))
        else Ok(Settings(server, port, db, table.scalar.s, key.scalar.s, controls.entries, interval.scalar.n))
  }
}
