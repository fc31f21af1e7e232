/**
 * What the collector does to the world outside the process: files it
 * writes and statements it hands to the database pool, in issue order.
 */
module Effects {
  import opened Outcomes

  /** A value bound to a `%s` placeholder: text, or a `datetime` of the run. */
  datatype Value = Text(text: string) | Time(instant: string)

  datatype Effect =
    | WriteFile(path: string, content: string)            // codecs.open(path, "w+") then writes
    | RunOperation(sql: string, params: seq<Value>)       // dbpool.runOperation(sql, params)
    | RunQuery(sql: string)                               // dbpool.runQuery(sql)

  predicate Writes(e: Effect, path: string) {
    e.WriteFile? && e.path == path
  }

  /** The content the last write to `path` left there, if any. */
  function LastWrite(effects: seq<Effect>, path: string): (r: Option<string>)
    ensures r.Some? ==> WriteFile(path, r.value) in effects
    ensures r.None? <==> forall i :: 0 <= i < |effects| ==> !Writes(effects[i], path)
  {
    if effects == [] then None
    else
      var e := effects[|effects| - 1];
      if Writes(e, path) then Some(e.content)
      else
        var r := LastWrite(effects[..|effects| - 1], path);
        assert forall i :: 0 <= i < |effects| - 1 ==> effects[..|effects| - 1][i] == effects[i];
        r
  }

  /**
   * A path holds content exactly when some effect wrote it, and then it
   * holds what the last of those writes wrote.
   */
  lemma {:induction false} LastWriteSpec(effects: seq<Effect>, path: string)
    ensures LastWrite(effects, path).None? <==> forall i :: 0 <= i < |effects| ==> !Writes(effects[i], path)
    ensures LastWrite(effects, path).Some? ==>
      exists i :: 0 <= i < |effects| && effects[i] == WriteFile(path, LastWrite(effects, path).value) &&
        forall j :: i < j < |effects| ==> !Writes(effects[j], path)
    decreases |effects|
  {
    if effects != [] {
      var n := |effects|;
      var init := effects[..n - 1];
      if !Writes(effects[n - 1], path) {
        LastWriteSpec(init, path);
        if LastWrite(effects, path).Some? {
          var i :| 0 <= i < |init| && init[i] == WriteFile(path, LastWrite(init, path).value) &&
            forall j :: i < j < |init| ==> !Writes(init[j], path);
          assert effects[i] == init[i];
          assert forall j :: i < j < n ==> !Writes(effects[j], path) by {
            forall j | i < j < n ensures !Writes(effects[j], path) {
              if j < n - 1 { assert effects[j] == init[j]; }
            }
          }
        }
      }
    }
  }

  /** Effects that do not write `path` leave what is there unchanged. */
  lemma {:induction false} LastWriteSkips(effects: seq<Effect>, more: seq<Effect>, path: string)
    requires forall i :: 0 <= i < |more| ==> !Writes(more[i], path)
    ensures LastWrite(effects + more, path) == LastWrite(effects, path)
    decreases |more|
  {
    if more == [] {
      assert effects + more == effects;
    } else {
      var m := more[..|more| - 1];
      var all := effects + more;
      assert all[..|all| - 1] == effects + m;
      assert all[|all| - 1] == more[|more| - 1];
      assert !Writes(all[|all| - 1], path);
      LastWriteSkips(effects, m, path);
    }
  }
}
