/**
 * The request context of the CRUD engine (`cosy.go`), the preload
 * resolution that turns relation names into query scopes (`preload.go`) and
 * the single-record read endpoint built on them (`item.go`).
 *
 * Go closures and the gorm/gin objects they act on are replaced by data:
 * a query scope says what it would do to the query, the database handle is
 * the list of scopes applied to it, and every observable step of `Get` is
 * appended to a trace of effects.
 */
module Cosy {
  import opened Wrappers
  import Cast

  /** A value of Go's `any`, kept opaque. */
  datatype Any = Any(repr: string)

  /** A function of type `func(tx *gorm.DB) *gorm.DB`. */
  datatype Scope =
    | PreloadScope(relation: string)   // `tx.Preload(relation)`
    | CustomScope(name: string)       // a scope added by the caller through `GormScope`

  /** The database handle as `Get` hands it to `scan` and `First`: the scopes applied to it. */
  datatype Query = Query(scopes: seq<Scope>)

  /** A hook of type `func(ctx *Ctx[T])`, kept opaque. */
  datatype Hook = Hook(name: string)

  /** The outcome of `db.First(&data, id)`. */
  datatype Fetch<T> = Found(data: T) | Failed(err: string)

  /** The body of a JSON response: the record itself, or a value computed from the query or the record. */
  datatype Body<T> = Record(data: T) | Computed(v: Any)

  /** An observable step of `Get`. */
  datatype Effect<T> =
    | UseDB                                        // `model.UseDB()`
    | HandleTable(table: string, args: seq<Any>)   // `c.handleTable()`
    | ApplyScopes(scopes: seq<Scope>)              // `c.appleGormScopes(db)`
    | First(id: int)                               // `db.First(&data, id)`
    | HandleError(err: string)                     // `errHandler(c.ctx, err)`
    | Respond(status: int, body: Body<T>)          // `c.ctx.JSON(status, body)`

  const StatusOK: int := 200

  /** The steps that end a request: a response or the error handler. */
  predicate IsOutcome<T>(e: Effect<T>)
  {
    e.Respond? || e.HandleError?
  }

  /** Exactly one step of `es` ends the request, and it is the last. */
  predicate EndsOnce<T>(es: seq<Effect<T>>)
  {
    |es| >= 1 && IsOutcome(es[|es| - 1]) && forall k :: 0 <= k < |es| - 1 ==> !IsOutcome(es[k])
  }

  // ---------------------------------------------------------------------
  // Specification functions
  // ---------------------------------------------------------------------

  /** One preload scope per relation name, in the same order. */
  function PreloadScopes(names: seq<string>): (scopes: seq<Scope>)
    ensures |scopes| == |names|
    ensures forall i :: 0 <= i < |names| ==> scopes[i] == PreloadScope(names[i])
  {
    if names == [] then []
    else PreloadScopes(names[..|names| - 1]) + [PreloadScope(names[|names| - 1])]
  }

  /** The column whitelist after inserting `cols` one after the other into `m`. */
  function Whitelist(m: map<string, bool>, cols: seq<string>): map<string, bool>
  {
    if cols == [] then m
    else Whitelist(m, cols[..|cols| - 1])[cols[|cols| - 1] := true]
  }

  /** The same whitelist described at once: every column of `cols` is on it and marked true, the rest of `m` is kept. */
  function WhitelistOf(m: map<string, bool>, cols: seq<string>): map<string, bool>
  {
    map k | k in m.Keys + (set c | c in cols) :: if k in cols then true else m[k]
  }

  lemma {:induction false} WhitelistIsWhitelistOf(m: map<string, bool>, cols: seq<string>)
    ensures Whitelist(m, cols) == WhitelistOf(m, cols)
  {
    if cols != [] {
      var init := cols[..|cols| - 1];
      WhitelistIsWhitelistOf(m, init);
      assert cols == init + [cols[|cols| - 1]];
      assert (set c | c in cols) == (set c | c in init) + {cols[|cols| - 1]};
    }
  }

  /** After the insertions every column is whitelisted and every earlier entry of `m` is still there. */
  lemma AllWhitelisted(m: map<string, bool>, cols: seq<string>)
    ensures forall c :: c in cols ==> c in Whitelist(m, cols) && Whitelist(m, cols)[c]
    ensures forall k :: k in m ==> k in Whitelist(m, cols)
    ensures forall k :: k in m && k !in cols ==> Whitelist(m, cols)[k] == m[k]
    ensures forall k :: k in Whitelist(m, cols) ==> k in m || k in cols
  {
    WhitelistIsWhitelistOf(m, cols);
  }

  /** Inserting the same columns twice changes nothing the second time. */
  lemma WhitelistIdempotent(m: map<string, bool>, cols: seq<string>)
    ensures Whitelist(Whitelist(m, cols), cols) == Whitelist(m, cols)
  {
    WhitelistIsWhitelistOf(m, cols);
    WhitelistIsWhitelistOf(Whitelist(m, cols), cols);
  }

  /** Only which columns are inserted matters, not their order or repetitions. */
  lemma WhitelistOrderIndependent(m: map<string, bool>, a: seq<string>, b: seq<string>)
    requires forall c :: c in a <==> c in b
    ensures Whitelist(m, a) == Whitelist(m, b)
  {
    WhitelistIsWhitelistOf(m, a);
    WhitelistIsWhitelistOf(m, b);
    assert (set c | c in a) == (set c | c in b);
  }

  /**
   * The steps of `Get` after its setup, on the database handle `q`: the
   * scan response, or the fetch followed by the error handler or by the raw
   * or transformed record.
   */
  function Answer<T>(scan: Option<Query -> Any>, transformer: Option<T -> Any>,
                     id: int, q: Query, first: (Query, int) -> Fetch<T>): seq<Effect<T>>
  {
    if scan.Some? then [Respond(StatusOK, Computed(scan.value(q)))]
    else
      match first(q, id)
      case Failed(err) => [First(id), HandleError(err)]
      case Found(data) =>
        if transformer.None? then [First(id), Respond(StatusOK, Record(data))]
        else [First(id), Respond(StatusOK, Computed(transformer.value(data)))]
  }

  /**
   * The steps of `Get` on a context that is not aborted, after the preload
   * scopes were added: the database handle, the table, the scopes, then the
   * answer.
   */
  function GetEffects<T>(table: string, tableArgs: seq<Any>, scopes: seq<Scope>,
                         scan: Option<Query -> Any>, transformer: Option<T -> Any>,
                         id: int, first: (Query, int) -> Fetch<T>): seq<Effect<T>>
  {
    [UseDB, HandleTable(table, tableArgs), ApplyScopes(scopes)]
      + Answer(scan, transformer, id, Query(scopes), first)
  }

  /**
   * What `Get` promises: the setup steps come first, exactly one outcome
   * follows and ends the request, a scan answers without fetching, a fetch
   * error gets only the error handler and no response, and a record is
   * answered with status 200, raw or through the transformer.
   */
  lemma GetEffectsPaths<T>(table: string, tableArgs: seq<Any>, scopes: seq<Scope>,
                           scan: Option<Query -> Any>, transformer: Option<T -> Any>,
                           id: int, first: (Query, int) -> Fetch<T>, es: seq<Effect<T>>)
    requires es == GetEffects(table, tableArgs, scopes, scan, transformer, id, first)
    ensures |es| >= 4 && es[..3] == [UseDB, HandleTable(table, tableArgs), ApplyScopes(scopes)]
    ensures EndsOnce(es)
    ensures scan.Some? <==> First(id) !in es
    ensures scan.Some? ==> es[|es| - 1] == Respond(StatusOK, Computed(scan.value(Query(scopes))))
    ensures scan.None? ==> es[3] == First(id)
    ensures scan.None? && first(Query(scopes), id).Failed? ==>
              es[|es| - 1] == HandleError(first(Query(scopes), id).err)
              && forall k :: 0 <= k < |es| ==> !es[k].Respond?
    ensures scan.None? && first(Query(scopes), id).Found? && transformer.None? ==>
              es[|es| - 1] == Respond(StatusOK, Record(first(Query(scopes), id).data))
    ensures scan.None? && first(Query(scopes), id).Found? && transformer.Some? ==>
              es[|es| - 1] == Respond(StatusOK, Computed(transformer.value(first(Query(scopes), id).data)))
  {
  }

  // ---------------------------------------------------------------------
  // The request context
  // ---------------------------------------------------------------------

  /** `Ctx[T]`: the per-request state a handler configures before running an operation. */
  class Ctx<T> {
    /** The request's path parameters, as `gin.Context.Param` reads them. */
    const params: map<string, string>
    var rules: map<string, Any>
    var table: string
    var tableArgs: seq<Any>
    var abort: bool
    var skipAssociationsOnCreate: bool
    var beforeDecodeHooks: seq<Hook>
    var beforeExecuteHooks: seq<Hook>
    var executedHooks: seq<Hook>
    var gormScopes: seq<Scope>
    var preloads: seq<string>
    var scan: Option<Query -> Any>
    var transformer: Option<T -> Any>
    var permanentlyDelete: bool
    var selectedFields: seq<string>
    var itemKey: string
    var columnWhiteList: map<string, bool>
    /** What the request has done so far through the database and the response writer. */
    var effects: seq<Effect<T>>

    /** `Core(c)`: a fresh context with the engine's defaults. */
    constructor Core(params: map<string, string>)
      ensures this.params == params
      ensures itemKey == "id" && skipAssociationsOnCreate && !abort && !permanentlyDelete
      ensures columnWhiteList == map[] && gormScopes == [] && preloads == []
      ensures beforeExecuteHooks == [] && beforeDecodeHooks == [] && executedHooks == []
      ensures rules == map[] && table == "" && tableArgs == [] && selectedFields == []
      ensures scan.None? && transformer.None? && effects == []
    {
      this.params := params;
      rules := map[];
      table := "";
      tableArgs := [];
      abort := false;
      skipAssociationsOnCreate := true;
      beforeDecodeHooks := [];
      beforeExecuteHooks := [];
      executedHooks := [];
      gormScopes := [];
      preloads := [];
      scan := None;
      transformer := None;
      permanentlyDelete := false;
      selectedFields := [];
      itemKey := "id";
      columnWhiteList := map[];
      effects := [];
    }

    method SetTable(table: string, args: seq<Any>) returns (c: Ctx<T>)
      modifies this`table, this`tableArgs
      ensures this.table == table && tableArgs == args && c == this
    {
      this.table := table;
      tableArgs := args;
      c := this;
    }

    method SetItemKey(key: string) returns (c: Ctx<T>)
      modifies this`itemKey
      ensures itemKey == key && c == this
    {
      itemKey := key;
      c := this;
    }

    /** The rules are stored as given; nothing is derived from them here. */
    method SetValidRules(rules: map<string, Any>) returns (c: Ctx<T>)
      modifies this`rules
      ensures this.rules == rules && c == this
    {
      this.rules := rules;
      c := this;
    }

    method SetPreloads(args: seq<string>) returns (c: Ctx<T>)
      modifies this`preloads
      ensures preloads == old(preloads) + args && c == this
    {
      preloads := preloads + args;
      c := this;
    }

    method SetScan(scan: Option<Query -> Any>) returns (c: Ctx<T>)
      modifies this`scan
      ensures this.scan == scan && c == this
    {
      this.scan := scan;
      c := this;
    }

    method SetTransformer(t: Option<T -> Any>) returns (c: Ctx<T>)
      modifies this`transformer
      ensures transformer == t && c == this
    {
      transformer := t;
      c := this;
    }

    /** `c.Param(key)`: the path parameter, "" when the route has none of that name. */
    function Param(key: string): (p: string)
      ensures key !in params ==> p == ""
      ensures key in params ==> p == params[key]
    {
      if key in params then params[key] else ""
    }

    /**
     * The numeric id of the request: the `id` path parameter (whatever the
     * item key is) read by `cast.ToInt`, so 0 when it is missing or not a
     * number, and never a failure.
     */
    function GetParamID(): (id: int)
      ensures Cast.MinInt64 <= id <= Cast.MaxInt64
      ensures "id" !in params ==> id == 0
    {
      Cast.ToInt(Param("id"))
    }

    /** Every column of `cols` is whitelisted; the earlier entries stay. */
    method AddColWhiteList(cols: seq<string>) returns (c: Ctx<T>)
      modifies this`columnWhiteList
      ensures columnWhiteList == Whitelist(old(columnWhiteList), cols) && c == this
    {
      var i := 0;
      while i < |cols|
        invariant 0 <= i <= |cols|
        invariant columnWhiteList == Whitelist(old(columnWhiteList), cols[..i])
      {
        assert cols[..i + 1][..i] == cols[..i];
        columnWhiteList := columnWhiteList[cols[i] := true];
        i := i + 1;
      }
      assert cols[..i] == cols;
      c := this;
    }

    /**
     * `resolvePreload`: one preload scope per name of `preloads`, in order,
     * after the scopes already there. `GormScope` is taken to append its
     * argument to `gormScopes`.
     */
    method ResolvePreload()
      modifies this`gormScopes
      ensures gormScopes == old(gormScopes) + PreloadScopes(preloads)
    {
      if |preloads| == 0 {
        return;
      }
      var i := 0;
      while i < |preloads|
        invariant 0 <= i <= |preloads|
        invariant gormScopes == old(gormScopes) + PreloadScopes(preloads[..i])
      {
        assert preloads[..i + 1][..i] == preloads[..i];
        gormScopes := gormScopes + [PreloadScope(preloads[i])];
        i := i + 1;
      }
      assert preloads[..i] == preloads;
    }

    /**
     * `Get`: read one record. An aborted request does nothing; otherwise the
     * preload scopes are added and the steps of `GetEffects` are performed.
     * The database's answer to `First` is the parameter `first`.
     */
    method Get(first: (Query, int) -> Fetch<T>)
      modifies this`gormScopes, this`effects
      ensures old(abort) ==> gormScopes == old(gormScopes) && effects == old(effects)
      ensures !old(abort) ==> gormScopes == old(gormScopes) + PreloadScopes(preloads)
      ensures !old(abort) ==>
                effects == old(effects) + GetEffects(table, tableArgs, gormScopes, scan, transformer,
                                                     GetParamID(), first)
    {
      if abort {
        return;
      }
      var id := GetParamID();
      ghost var start := effects;
      effects := effects + [UseDB];
      effects := effects + [HandleTable(table, tableArgs)];
      ResolvePreload();
      effects := effects + [ApplyScopes(gormScopes)];
      ghost var setup := [UseDB, HandleTable(table, tableArgs), ApplyScopes(gormScopes)];
      assert effects == start + setup;
      var db := Query(gormScopes);
      Reply(id, db, first);
      assert effects == start + (setup + Answer(scan, transformer, id, db, first));
    }

    /** The part of `Get` after its setup: answer from the scan, or fetch and answer from the record. */
    method Reply(id: int, db: Query, first: (Query, int) -> Fetch<T>)
      modifies this`effects
      ensures effects == old(effects) + Answer(scan, transformer, id, db, first)
    {
      if scan.Some? {
        effects := effects + [Respond(StatusOK, Computed(scan.value(db)))];
        return;
      }
      effects := effects + [First(id)];
      var result := first(db, id);
      if result.Failed? {
        effects := effects + [HandleError(result.err)];
        return;
      }
      var data := result.data;
      if transformer.None? {
        effects := effects + [Respond(StatusOK, Record(data))];
        return;
      }
      effects := effects + [Respond(StatusOK, Computed(transformer.value(data)))];
    }
  }

  /** A decimal `id` parameter within int64 is the id. */
  lemma ParamIDDecimal<T>(c: Ctx<T>, n: nat)
    requires n <= Cast.MaxInt64 && c.Param("id") == Cast.DecimalString(n)
    ensures c.GetParamID() == n
  {
    Cast.ToIntDecimal(n);
  }

  /** An `id` parameter with a character that is not a digit gives 0. */
  lemma ParamIDNotNumeric<T>(c: Ctx<T>, k: nat)
    requires k < |c.Param("id")| && !('0' <= c.Param("id")[k] <= '9')
    requires c.Param("id")[k] != '.'
    requires k == 0 ==> c.Param("id")[0] != '-' && c.Param("id")[0] != '+'
    ensures c.GetParamID() == 0
  {
    Cast.ToIntNotNumeric(c.Param("id"), k);
  }
}
