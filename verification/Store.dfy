/** state.db: the branches and baselines tables. Each method is one statement. */
module Store {
  import opened Names
  import opened Pool

  datatype State = Creating | Running | Sleeping | Resetting | Deleting | Error

  /** failed_operation, which Retry dispatches on. */
  datatype Op = NoOp | CreateOp | ResetOp | RecreateOp | WakeOp | ReconcileOp

  datatype Row = Row(state: State, port: int, origin: SnapRef,
                     failedOp: Op, recoverable: bool, initSnapshot: Option<SnapRef>,
                     profile: string, createdAt: int, lastConnAt: Option<int>,
                     expiresAt: Option<int>, errorAt: Option<int>)

  datatype BaselineRow = BaselineRow(createdAt: int, current: bool, masked: bool, validated: bool)

  type Rows = map<string, Row>
  type Baselines = map<SnapRef, BaselineRow>

  /** A row in a state other than error carries no diagnosis. */
  function WithState(r: Row, st: State, now: int): Row {
    r.(state := st, failedOp := NoOp, recoverable := false,
       errorAt := if st == Error then (if r.errorAt.Some? then r.errorAt else Some(now)) else None)
  }

  function WithError(r: Row, op: Op, recoverable: bool, now: int): Row {
    r.(state := Error, failedOp := op, recoverable := recoverable,
       errorAt := if r.errorAt.Some? then r.errorAt else Some(now))
  }

  /** The upsert keeps the age and the current flag of a row that is already there. */
  function Registered(bs: Baselines, s: SnapRef, masked: bool, validated: bool, now: int): Baselines {
    bs[s := if s in bs then bs[s].(masked := masked, validated := validated)
            else BaselineRow(now, false, masked, validated)]
  }

  function MadeCurrent(bs: Baselines, s: SnapRef, now: int): Baselines {
    (map t | t in bs :: bs[t].(current := false))
    [s := if s in bs then bs[s].(current := true) else BaselineRow(now, true, false, false)]
  }

  predicate AtMostOneCurrent(bs: Baselines) {
    forall s, t :: s in bs && t in bs && bs[s].current && bs[t].current ==> s == t
  }

  predicate HasCurrent(bs: Baselines) {
    exists s :: s in bs && bs[s].current
  }

  /** The current row if there is one, the backend's default otherwise. */
  ghost function CurrentOf(bs: Baselines, default: SnapRef): SnapRef {
    if HasCurrent(bs) then var s :| s in bs && bs[s].current; s else default
  }

  lemma CurrentIs(bs: Baselines, default: SnapRef, s: SnapRef)
    requires AtMostOneCurrent(bs) && s in bs && bs[s].current
    ensures CurrentOf(bs, default) == s
  {
  }

  /** Newest first, each once. */
  predicate ByAge(list: seq<SnapRef>, bs: Baselines) {
    && (forall s :: s in bs ==> s in list)
    && (forall i :: 0 <= i < |list| ==> list[i] in bs)
    && (forall i, j :: 0 <= i < j < |list| ==> list[i] != list[j])
    && (forall i, j :: 0 <= i < j < |list| && list[i] in bs && list[j] in bs ==>
        bs[list[i]].createdAt >= bs[list[j]].createdAt)
  }

  /** What has been taken off `bs` so far is in order, and nothing left is newer. */
  predicate Listed(list: seq<SnapRef>, left: set<SnapRef>, bs: Baselines) {
    && left <= bs.Keys
    && (forall s :: s in bs ==> s in left || s in list)
    && (forall i :: 0 <= i < |list| ==> list[i] in bs && list[i] !in left)
    && (forall i, j :: 0 <= i < j < |list| ==> list[i] != list[j] && bs[list[i]].createdAt >= bs[list[j]].createdAt)
    && (list != [] ==> forall t :: t in left ==> bs[list[|list| - 1]].createdAt >= bs[t].createdAt)
  }

  lemma NothingListed(bs: Baselines)
    ensures Listed([], bs.Keys, bs)
  {
  }

  lemma ListedLeft(list: seq<SnapRef>, left: set<SnapRef>, bs: Baselines)
    requires Listed(list, left, bs)
    ensures left <= bs.Keys
  {
  }

  lemma AllListed(list: seq<SnapRef>, bs: Baselines)
    requires Listed(list, {}, bs)
    ensures ByAge(list, bs)
  {
  }

  lemma ByAgeIs(list: seq<SnapRef>, bs: Baselines)
    requires ByAge(list, bs)
    ensures forall s :: s in list <==> s in bs
    ensures forall i, j :: 0 <= i < j < |list| ==> list[i] != list[j] && bs[list[i]].createdAt >= bs[list[j]].createdAt
  {
  }

  lemma ListedNext(list: seq<SnapRef>, left: set<SnapRef>, bs: Baselines, s: SnapRef)
    requires Listed(list, left, bs) && s in left && forall t :: t in left ==> bs[t].createdAt <= bs[s].createdAt
    ensures Listed(list + [s], left - {s}, bs)
  {
    var more := list + [s];
    assert forall t :: t in list ==> t in more;
    assert more[|list|] == s;
    forall i | 0 <= i < |list| ensures bs[list[i]].createdAt >= bs[s].createdAt {
      assert bs[list[i]].createdAt >= bs[list[|list| - 1]].createdAt;
    }
  }

  lemma {:induction false} SomeNewest(bs: Baselines, left: set<SnapRef>)
    requires left != {} && left <= bs.Keys
    ensures exists s :: s in left && forall t :: t in left ==> bs[t].createdAt <= bs[s].createdAt
    decreases |left|
  {
    var s :| s in left;
    if left != {s} {
      SomeNewest(bs, left - {s});
      var t :| t in left - {s} && forall u :: u in left - {s} ==> bs[u].createdAt <= bs[t].createdAt;
      var best := if bs[s].createdAt <= bs[t].createdAt then t else s;
      assert best in left && forall u :: u in left ==> bs[u].createdAt <= bs[best].createdAt;
    }
  }

  class DB {
    var rows: Rows
    var baselines: Baselines

    constructor (rows: Rows, baselines: Baselines)
      ensures this.rows == rows && this.baselines == baselines
    {
      this.rows, this.baselines := rows, baselines;
    }

    method CreateBranch(name: string, port: int, origin: SnapRef, profile: string, now: int)
      requires name !in rows
      modifies this`rows
      ensures rows == old(rows)[name := Row(Creating, port, origin, NoOp, false, None, profile, now, None, None, None)]
    {
      rows := rows[name := Row(Creating, port, origin, NoOp, false, None, profile, now, None, None, None)];
    }

    method SetState(name: string, st: State, now: int)
      requires name in rows
      modifies this`rows
      ensures rows == old(rows)[name := WithState(old(rows)[name], st, now)]
      // the request stays, the diagnosis goes, and the time of an error stays with the error
      ensures var o := old(rows)[name];
              rows[name] == Row(st, o.port, o.origin, NoOp, false, o.initSnapshot, o.profile, o.createdAt, o.lastConnAt,
                                o.expiresAt, rows[name].errorAt)
      ensures st != Error ==> rows[name].errorAt == None
      ensures st == Error ==>
                rows[name].errorAt == if old(rows)[name].errorAt.None? then Some(now) else old(rows)[name].errorAt
    {
      rows := rows[name := WithState(rows[name], st, now)];
    }

    method SetError(name: string, op: Op, recoverable: bool, now: int)
      requires name in rows
      modifies this`rows
      ensures rows == old(rows)[name := WithError(old(rows)[name], op, recoverable, now)]
      ensures var o := old(rows)[name];
              rows[name] == Row(Error, o.port, o.origin, op, recoverable, o.initSnapshot, o.profile, o.createdAt,
                                o.lastConnAt, o.expiresAt, if o.errorAt.None? then Some(now) else o.errorAt)
    {
      rows := rows[name := WithError(rows[name], op, recoverable, now)];
    }

    method SetProvision(name: string, init: SnapRef)
      requires name in rows
      modifies this`rows
      ensures rows == old(rows)[name := old(rows)[name].(initSnapshot := Some(init))]
    {
      rows := rows[name := rows[name].(initSnapshot := Some(init))];
    }

    method UpdateOrigin(name: string, origin: SnapRef)
      requires name in rows
      modifies this`rows
      ensures rows == old(rows)[name := old(rows)[name].(origin := origin)]
    {
      rows := rows[name := rows[name].(origin := origin)];
    }

    method TouchLastConn(name: string, now: int)
      requires name in rows
      modifies this`rows
      ensures rows == old(rows)[name := old(rows)[name].(lastConnAt := Some(now))]
    {
      rows := rows[name := rows[name].(lastConnAt := Some(now))];
    }

    method MarkErrorAtIfMissing(name: string, now: int)
      requires name in rows
      modifies this`rows
      ensures rows == if old(rows)[name].state == Error && old(rows)[name].errorAt.None?
                      then old(rows)[name := old(rows)[name].(errorAt := Some(now))] else old(rows)
    {
      if rows[name].state == Error && rows[name].errorAt.None? {
        rows := rows[name := rows[name].(errorAt := Some(now))];
      }
    }

    method DeleteBranch(name: string)
      modifies this`rows
      ensures rows == old(rows) - {name}
    {
      rows := rows - {name};
    }

    /** All branch names, each once. */
    method ListBranches() returns (names: seq<string>)
      ensures forall n :: n in names <==> n in rows
      ensures forall i, j :: 0 <= i < j < |names| ==> names[i] != names[j]
      ensures |names| == |rows|
    {
      names := [];
      var left := rows.Keys;
      while left != {}
        invariant left <= rows.Keys
        invariant forall n :: n in names <==> n in rows && n !in left
        invariant forall i, j :: 0 <= i < j < |names| ==> names[i] != names[j]
        invariant |names| + |left| == |rows.Keys|
      {
        var n :| n in left;
        names := names + [n];
        left := left - {n};
      }
    }

    method ListBaselines() returns (list: seq<SnapRef>)
      ensures ByAge(list, baselines)
      ensures forall s :: s in list <==> s in baselines
      ensures forall i, j :: 0 <= i < j < |list| ==>
                list[i] != list[j] && baselines[list[i]].createdAt >= baselines[list[j]].createdAt
    {
      hide ByAge, Listed;
      list := [];
      var left := baselines.Keys;
      NothingListed(baselines);
      while left != {}
        invariant Listed(list, left, baselines)
      {
        ListedLeft(list, left, baselines);
        SomeNewest(baselines, left);
        var s :| s in left && forall t :: t in left ==> baselines[t].createdAt <= baselines[s].createdAt;
        ListedNext(list, left, baselines, s);
        list := list + [s];
        left := left - {s};
      }
      AllListed(list, baselines);
      ByAgeIs(list, baselines);
    }

    method RegisterBaseline(s: SnapRef, masked: bool, validated: bool, now: int)
      modifies this`baselines
      ensures baselines == Registered(old(baselines), s, masked, validated, now)
      ensures s in baselines && baselines[s].masked == masked && baselines[s].validated == validated
      ensures if s in old(baselines) then
                baselines[s].createdAt == old(baselines)[s].createdAt
                  && baselines[s].current == old(baselines)[s].current
              else baselines[s].createdAt == now && !baselines[s].current
      ensures baselines - {s} == old(baselines) - {s}
    {
      baselines := Registered(baselines, s, masked, validated, now);
    }

    method SetCurrentBaseline(s: SnapRef, now: int)
      modifies this`baselines
      ensures baselines == MadeCurrent(old(baselines), s, now)
      ensures baselines.Keys == old(baselines).Keys + {s} && forall t :: t in baselines ==>
                (baselines[t].current <==> t == s)
      ensures forall t :: t in old(baselines) && t in baselines ==>
                baselines[t] == old(baselines)[t].(current := baselines[t].current)
      ensures s !in old(baselines) ==> baselines[s] == BaselineRow(now, true, false, false)
    {
      baselines := MadeCurrent(baselines, s, now);
    }

    method DeleteBaseline(s: SnapRef)
      modifies this`baselines
      ensures baselines == old(baselines) - {s}
    {
      baselines := baselines - {s};
    }

    /** currentBaseline: the row marked current, else the backend's default. */
    method CurrentBaseline(default: SnapRef) returns (s: SnapRef)
      requires AtMostOneCurrent(baselines)
      ensures s == CurrentOf(baselines, default)
    {
      s := default;
      var left := baselines.Keys;
      while left != {}
        invariant left <= baselines.Keys
        invariant forall t :: t in baselines && t !in left ==> !baselines[t].current
        invariant s == default
      {
        var t :| t in left;
        if baselines[t].current {
          CurrentIs(baselines, default, t);
          return t;
        }
        left := left - {t};
      }
    }

    /** BaselineRefCounts, as the question its callers ask. */
    method Referenced(s: SnapRef) returns (yes: bool)
      ensures yes <==> exists n :: n in rows && rows[n].origin == s
    {
      yes := exists n :: n in rows && rows[n].origin == s;
    }
  }
}
