/** Where `smax_logging_action` of src/smax_daemon/example_smax_daemon.py shares a logged value:
    a flattened key `a:b:c` becomes field `c` of the table `<smax_table>:<smax_key>:a:b`. */
module SmaxKeys {
  import Strings

  /** `(atab, skey)` for a logged key: the sub-table under the service's own key and the field. */
  function TableAndKey(smaxKey: string, key: string): (r: (string, string))
    ensures ':' !in r.1
    ensures r.0 + ":" + r.1 == smaxKey + ":" + key
  {
    if ':' in key then
      var parts := Strings.Split(key, ':');
      var init := parts[..|parts| - 1];
      Strings.JoinSnoc([smaxKey] + init, parts[|parts| - 1], ':');
      assert [smaxKey] + init + [parts[|parts| - 1]] == [smaxKey] + parts;
      Strings.JoinCons(smaxKey, parts, ':');
      Strings.JoinSplit(key, ':');
      (Strings.Join([smaxKey] + init, ':'), parts[|parts| - 1])
    else (smaxKey, key)
  }

  /** The table-and-field pair is the only one that splits `smax_key:key` at its last `:`, so
      the two branches of the source agree with that single rule. */
  lemma TableAndKeySplitsAtLastColon(smaxKey: string, key: string, table: string, field: string)
    requires ':' !in field
    requires table + ":" + field == smaxKey + ":" + key
    ensures TableAndKey(smaxKey, key) == (table, field)
  {
    var r := TableAndKey(smaxKey, key);
    Strings.SplitLastUnique(r.0, r.1, table, field, ':');
  }

  /** With a separator-free service key, the sub-table splits into the service key followed by
      every segment of the logged key but the last. */
  lemma NestedKeySegments(smaxKey: string, key: string)
    requires ':' !in smaxKey
    ensures Strings.Split(TableAndKey(smaxKey, key).0, ':')
      == [smaxKey] + Strings.Split(key, ':')[..|Strings.Split(key, ':')| - 1]
  {
    var parts := Strings.Split(key, ':');
    if ':' in key {
      var segs := [smaxKey] + parts[..|parts| - 1];
      forall i | 0 <= i < |segs| ensures ':' !in segs[i] {
        if i > 0 {
          assert segs[i] == parts[i - 1];
        }
      }
      Strings.SplitJoin(segs, ':');
    } else {
      Strings.SplitSingle(key, ':');
      Strings.SplitSingle(smaxKey, ':');
    }
  }
}
