/** The replication frames that the CDC reader receives, the messages it
    publishes, and what one buffered transaction stands for.

    Models services/cdc-reader/src/lib.rs: the relation classification, the
    causation stamp, and the wire messages of a transaction. */
module Events {
  import opened Decimals
  import opened Optional

  datatype Op = Insert | Update | Delete

  datatype Causation = Causation(run: string, root: string, depth: nat)

  /** Column name to text, None for SQL NULL. An unchanged TOAST column is absent. */
  type Columns = map<string, Option<string>>

  /** `utf8` says whether every value of the row is valid UTF-8. */
  datatype RowData = RowData(columns: Columns, utf8: bool)

  /** One frame of the logical replication stream. `content` of a Message is
      what its bytes parse to as a causation stamp, None when they do not. */
  datatype Frame =
    | Begin(txid: nat, commitTs: int)
    | Commit(endLsn: nat)
    | Change(lsn: nat, op: Op, before: Option<RowData>, after: Option<RowData>, table: string, oid: nat)
    | Message(flags: nat, prefix: string, content: Option<Causation>)
    | Truncate
    | Metadata
    | Keepalive(walEnd: nat)
    | Unexpected

  datatype ErrorKind =
    | Protocol | Buffer | TransientConnection | PermanentConnection | ReplicationConnection
    | Authentication | ReplicationSlot | Timeout | Cancelled | Configuration | Io | Backend

  /** A replication error: its variant, and whether its text speaks of an
      invalidated slot or one that can no longer be used. */
  datatype Error = Error(kind: ErrorKind, mentionsInvalidation: bool)

  datatype Classification =
    | Entity(packageId: string, entityId: string)
    | Excluded(packageId: string, relationId: string)

  /** The package maps, by relation OID. An absent OID is a refusal. */
  type Catalog = map<nat, Classification>

  datatype Config = Config(project: string, env: string, catalog: Catalog, maxInFlight: nat)

  const CONTROL_ENTITY_MAP := "wamn_entities"
  const CONTROL_EXCLUSION_MAP := "wamn_cdc_exclusions"

  lemma {:induction false} ControlNames()
    ensures CONTROL_ENTITY_MAP == "wamn_entities" && CONTROL_EXCLUSION_MAP == "wamn_cdc_exclusions"
  {
  }

  predicate ControlOwned(f: Frame)
    requires f.Change?
  {
    f.table == CONTROL_ENTITY_MAP || f.table == CONTROL_EXCLUSION_MAP
  }

  /** The `Nats-Msg-Id` of a row event. */
  function MsgId(cfg: Config, lsn: nat): string {
    cfg.project + "_" + cfg.env + ":" + Decimal(lsn)
  }

  lemma {:induction false} MsgIdInjective(cfg: Config, a: nat, b: nat)
    requires MsgId(cfg, a) == MsgId(cfg, b)
    ensures a == b
  {
    var head := cfg.project + "_" + cfg.env + ":";
    assert MsgId(cfg, a)[|head|..] == Decimal(a);
    assert MsgId(cfg, b)[|head|..] == Decimal(b);
    DecimalInjective(a, b);
  }

  /** The place of the last colon of a message id. */
  lemma {:induction false} MsgIdSplits(cfg: Config, lsn: nat)
    ensures var head := cfg.project + "_" + cfg.env;
            && MsgId(cfg, lsn)[..|head|] == head && |head| < |MsgId(cfg, lsn)| && MsgId(cfg, lsn)[|head|] == ':'
            && MsgId(cfg, lsn)[|head| + 1..] == Decimal(lsn)
            && forall i :: |head| < i < |MsgId(cfg, lsn)| ==> MsgId(cfg, lsn)[i] != ':'
  {
    var head := cfg.project + "_" + cfg.env;
    assert MsgId(cfg, lsn) == head + ":" + Decimal(lsn);
    assert OnlyDigits(Decimal(lsn));
  }

  /** Two message ids are equal if and only if the LSNs are equal and the two project
      environments render alike. */
  lemma {:induction false} SameIdExactly(a: Config, x: nat, b: Config, y: nat)
    ensures MsgId(a, x) == MsgId(b, y) <==> x == y && a.project + "_" + a.env == b.project + "_" + b.env
  {
    MsgIdSplits(a, x);
    MsgIdSplits(b, y);
    if MsgId(a, x) == MsgId(b, y) {
      var m, n := |a.project + "_" + a.env|, |b.project + "_" + b.env|;
      assert !(m < n) && !(n < m);
      DecimalInjective(x, y);
    }
  }

  /** The names that provisioning accepts hold no underscore. */
  predicate Declared(cfg: Config) {
    '_' !in cfg.project && '_' !in cfg.env
  }

  /** Two declared project environments never share a message id, and one never
      gives one id to two LSNs. */
  lemma {:induction false} DeclaredIdsAreApart(a: Config, x: nat, b: Config, y: nat)
    requires Declared(a) && Declared(b)
    ensures MsgId(a, x) == MsgId(b, y) <==> x == y && a.project == b.project && a.env == b.env
  {
    SameIdExactly(a, x, b, y);
    var s, t := a.project + "_" + a.env, b.project + "_" + b.env;
    if s == t {
      assert s[|a.project|] == '_' && t[|b.project|] == '_';
      assert forall i :: 0 <= i < |a.project| ==> s[i] == a.project[i] && s[i] in a.project;
      assert forall i :: 0 <= i < |b.project| ==> t[i] == b.project[i] && t[i] in b.project;
      assert |a.project| == |b.project|;
      assert s[..|a.project|] == a.project && t[..|b.project|] == b.project;
      assert s[|a.project| + 1..] == a.env && t[|b.project| + 1..] == b.env;
    }
  }

  /** With an underscore in a name two project environments can share an id. */
  lemma {:induction false} UnderscoresCollide()
    ensures MsgId(Config("a_b", "c", map[], 1), 7) == MsgId(Config("a", "b_c", map[], 1), 7)
  {
    assert "a_b" + "_" + "c" == "a" + "_" + "b_c";
    SameIdExactly(Config("a_b", "c", map[], 1), 7, Config("a", "b_c", map[], 1), 7);
  }

  /** A row that waits for the commit of its transaction. */
  datatype Pending = Pending(
    op: Op, before: Option<Columns>, after: Option<Columns>,
    packageId: string, entityId: string, table: string, lsn: nat)

  /** A wire message: its deduplication id and its envelope. */
  datatype Msg = Msg(id: string, row: Pending, txid: nat, commitTs: int, causation: Option<Causation>)

  /** A transaction between its Begin and its Commit, as raw frames. */
  datatype Open = Open(txid: nat, commitTs: int, body: seq<Frame>)

  function ColumnsOf(data: Option<RowData>): Option<Columns> {
    match data
    case None => None
    case Some(d) => Some(d.columns)
  }

  predicate Utf8(data: Option<RowData>) {
    data.Some? ==> data.value.utf8
  }

  /** A causation stamp counts only when the frame is transactional (flag 1) and
      carries the contract's prefix. */
  function ParseCausation(flags: nat, prefix: string, content: Option<Causation>): Option<Causation> {
    if flags % 2 == 0 || prefix != "wamn.causation" then None else content
  }

  predicate IsStamp(f: Frame) {
    f.Message? && ParseCausation(f.flags, f.prefix, f.content).Some?
  }

  predicate Publishable(catalog: Catalog, f: Frame) {
    f.Change? && !ControlOwned(f) && f.oid in catalog && catalog[f.oid].Entity?
  }

  function PendingOf(catalog: Catalog, f: Frame): Pending
    requires Publishable(catalog, f)
  {
    Pending(f.op, ColumnsOf(f.before), ColumnsOf(f.after),
            catalog[f.oid].packageId, catalog[f.oid].entityId, f.table, f.lsn)
  }

  /** The rows of a transaction body that publish, in order, each classified by
      its own catalog lookup. */
  function PendingRows(catalog: Catalog, body: seq<Frame>): seq<Pending> {
    if body == [] then []
    else
      var f := body[|body| - 1];
      PendingRows(catalog, body[..|body| - 1]) +
      (if Publishable(catalog, f) then [PendingOf(catalog, f)] else [])
  }

  /** The last valid stamp of a transaction body. */
  function Stamp(body: seq<Frame>): Option<Causation> {
    if body == [] then None
    else
      var f := body[|body| - 1];
      if IsStamp(f) then f.content else Stamp(body[..|body| - 1])
  }

  function Render(cfg: Config, rows: seq<Pending>, txid: nat, commitTs: int, causation: Option<Causation>): (msgs: seq<Msg>)
    ensures |msgs| == |rows|
    ensures forall i :: 0 <= i < |rows| ==> msgs[i] == Msg(MsgId(cfg, rows[i].lsn), rows[i], txid, commitTs, causation)
  {
    if rows == [] then []
    else
      Render(cfg, rows[..|rows| - 1], txid, commitTs, causation) +
      [Msg(MsgId(cfg, rows[|rows| - 1].lsn), rows[|rows| - 1], txid, commitTs, causation)]
  }

  /** The messages that one committed transaction publishes. */
  function MsgsOf(cfg: Config, o: Open): seq<Msg> {
    Render(cfg, PendingRows(cfg.catalog, o.body), o.txid, o.commitTs, Stamp(o.body))
  }

  // ----- What each message carries, field by field

  /** The frame is a row of a managed application relation. */
  ghost predicate ApplicationRow(catalog: Catalog, f: Frame) {
    && f.Change? && f.table != CONTROL_ENTITY_MAP && f.table != CONTROL_EXCLUSION_MAP
    && f.oid in catalog && catalog[f.oid].Entity?
  }

  /** `to` holds the columns of `from`, and is missing where `from` is. */
  ghost predicate SameColumns(from: Option<RowData>, to: Option<Columns>) {
    && (from.None? <==> to.None?)
    && (from.Some? ==> to.value == from.value.columns)
  }

  /** The message is that of the change frame `f`. */
  ghost predicate CarriesRow(cfg: Config, f: Frame, m: Msg)
    requires ApplicationRow(cfg.catalog, f)
  {
    && m.row.op == f.op && m.row.table == f.table && m.row.lsn == f.lsn
    && SameColumns(f.before, m.row.before) && SameColumns(f.after, m.row.after)
    && m.row.packageId == cfg.catalog[f.oid].packageId && m.row.entityId == cfg.catalog[f.oid].entityId
    && m.id == cfg.project + "_" + cfg.env + ":" + Decimal(f.lsn)
  }

  ghost predicate Rising(at: seq<nat>) {
    forall i, j :: 0 <= i < j < |at| ==> at[i] < at[j]
  }

  /** `at` are the places of the application rows of a body, all of them in order. */
  ghost predicate RowPlaces(catalog: Catalog, body: seq<Frame>, at: seq<nat>) {
    && Rising(at)
    && (forall i :: 0 <= i < |at| ==> at[i] < |body| && ApplicationRow(catalog, body[at[i]]))
    && (forall p :: 0 <= p < |body| && ApplicationRow(catalog, body[p]) ==> p in at)
  }

  lemma {:induction false} PlacesStay(catalog: Catalog, body: seq<Frame>, f: Frame, at: seq<nat>)
    requires RowPlaces(catalog, body, at) && !ApplicationRow(catalog, f)
    ensures RowPlaces(catalog, body + [f], at)
  {
    var all := body + [f];
    forall p | 0 <= p < |all| && ApplicationRow(catalog, all[p]) ensures p in at {
      assert p < |body| && all[p] == body[p];
    }
  }

  lemma {:induction false} PlacesGrow(catalog: Catalog, body: seq<Frame>, f: Frame, at: seq<nat>)
    requires RowPlaces(catalog, body, at) && ApplicationRow(catalog, f)
    ensures RowPlaces(catalog, body + [f], at + [|body|])
  {
    var all, places := body + [f], at + [|body|];
    assert places[|at|] == |body| && all[|body|] == f;
    forall p | 0 <= p < |all| && ApplicationRow(catalog, all[p]) ensures p in places {
      if p < |body| {
        assert all[p] == body[p];
      }
    }
  }

  ghost predicate RowOf(catalog: Catalog, f: Frame, row: Pending)
    requires ApplicationRow(catalog, f)
  {
    && row.op == f.op && row.table == f.table && row.lsn == f.lsn
    && SameColumns(f.before, row.before) && SameColumns(f.after, row.after)
    && row.packageId == catalog[f.oid].packageId && row.entityId == catalog[f.oid].entityId
  }

  ghost predicate RowAt(catalog: Catalog, body: seq<Frame>, row: Pending, p: nat) {
    p < |body| && ApplicationRow(catalog, body[p]) && RowOf(catalog, body[p], row)
  }

  ghost predicate RowsAt(catalog: Catalog, body: seq<Frame>, rows: seq<Pending>, at: seq<nat>) {
    |at| == |rows| && forall i :: 0 <= i < |at| ==> RowAt(catalog, body, rows[i], at[i])
  }

  lemma {:induction false} RowsStay(catalog: Catalog, body: seq<Frame>, f: Frame, rows: seq<Pending>, at: seq<nat>)
    requires RowsAt(catalog, body, rows, at)
    ensures RowsAt(catalog, body + [f], rows, at)
  {
    forall i | 0 <= i < |at| ensures RowAt(catalog, body + [f], rows[i], at[i]) {
      assert RowAt(catalog, body, rows[i], at[i]);
    }
  }

  lemma {:induction false} RowJoins(catalog: Catalog, body: seq<Frame>, rows: seq<Pending>, at: seq<nat>, row: Pending, p: nat)
    requires RowsAt(catalog, body, rows, at) && RowAt(catalog, body, row, p)
    ensures RowsAt(catalog, body, rows + [row], at + [p])
  {
    forall i | 0 <= i < |at + [p]| ensures RowAt(catalog, body, (rows + [row])[i], (at + [p])[i]) {
      if i < |at| {
        assert RowAt(catalog, body, rows[i], at[i]);
      }
    }
  }

  lemma {:induction false} RowsGrow(catalog: Catalog, body: seq<Frame>, f: Frame, at: seq<nat>) returns (all: seq<nat>)
    requires RowPlaces(catalog, body, at) && RowsAt(catalog, body, PendingRows(catalog, body), at)
    ensures RowPlaces(catalog, body + [f], all) && RowsAt(catalog, body + [f], PendingRows(catalog, body + [f]), all)
  {
    var rows := PendingRows(catalog, body);
    assert (body + [f])[..|body|] == body;
    RowsStay(catalog, body, f, rows, at);
    if Publishable(catalog, f) {
      PlacesGrow(catalog, body, f, at);
      assert (body + [f])[|body|] == f;
      RowJoins(catalog, body + [f], rows, at, PendingOf(catalog, f), |body|);
      all := at + [|body|];
    } else {
      PlacesStay(catalog, body, f, at);
      all := at;
    }
  }

  lemma {:induction false} RowsAreTheFrames(catalog: Catalog, body: seq<Frame>) returns (at: seq<nat>)
    ensures RowPlaces(catalog, body, at) && RowsAt(catalog, body, PendingRows(catalog, body), at)
  {
    if body == [] {
      at := [];
    } else {
      var rest, n := body[..|body| - 1], |body| - 1;
      at := RowsAreTheFrames(catalog, rest);
      at := RowsGrow(catalog, rest, body[n], at);
      assert rest + [body[n]] == body;
    }
  }

  /** The messages of a transaction are its application rows, one message for each,
      in order and with nothing between them lost, each with the operation, table,
      LSN, old and new columns of its own frame, the identity that the catalog gives
      the relation, and the shared transaction data. */
  lemma {:induction false} MessagesAreTheRows(cfg: Config, o: Open) returns (at: seq<nat>)
    ensures RowPlaces(cfg.catalog, o.body, at) && |at| == |MsgsOf(cfg, o)|
    ensures forall i :: 0 <= i < |at| ==>
              && CarriesRow(cfg, o.body[at[i]], MsgsOf(cfg, o)[i])
              && MsgsOf(cfg, o)[i].txid == o.txid && MsgsOf(cfg, o)[i].commitTs == o.commitTs
  {
    at := RowsAreTheFrames(cfg.catalog, o.body);
    var rows, msgs := PendingRows(cfg.catalog, o.body), MsgsOf(cfg, o);
    forall i | 0 <= i < |at|
      ensures CarriesRow(cfg, o.body[at[i]], msgs[i]) && msgs[i].txid == o.txid && msgs[i].commitTs == o.commitTs
    {
      assert RowAt(cfg.catalog, o.body, rows[i], at[i]);
      assert msgs[i] == Msg(MsgId(cfg, rows[i].lsn), rows[i], o.txid, o.commitTs, Stamp(o.body));
    }
  }

  // ----- Causation does not depend on frame order

  function Changes(body: seq<Frame>): seq<Frame> {
    if body == [] then []
    else
      var f := body[|body| - 1];
      Changes(body[..|body| - 1]) + (if f.Change? then [f] else [])
  }

  function Messages(body: seq<Frame>): seq<Frame> {
    if body == [] then []
    else
      var f := body[|body| - 1];
      Messages(body[..|body| - 1]) + (if f.Message? then [f] else [])
  }

  lemma {:induction false} PendingRowsOfChanges(catalog: Catalog, body: seq<Frame>)
    ensures PendingRows(catalog, body) == PendingRows(catalog, Changes(body))
  {
    if body != [] {
      PendingRowsOfChanges(catalog, body[..|body| - 1]);
      var prior := Changes(body[..|body| - 1]);
      if body[|body| - 1].Change? {
        assert Changes(body)[..|Changes(body)| - 1] == prior;
      } else {
        assert Changes(body) == prior;
      }
    }
  }

  lemma {:induction false} StampOfMessages(body: seq<Frame>)
    ensures Stamp(body) == Stamp(Messages(body))
  {
    if body != [] {
      StampOfMessages(body[..|body| - 1]);
      var prior := Messages(body[..|body| - 1]);
      if body[|body| - 1].Message? {
        assert Messages(body)[..|Messages(body)| - 1] == prior;
      } else {
        assert Messages(body) == prior;
      }
    }
  }

  /** Two transactions with the same change frames and the same message frames
      publish identical messages, however the two kinds interleave and whatever
      other frames stand between them. */
  lemma {:induction false} CausationIgnoresFrameOrder(cfg: Config, a: Open, b: Open)
    requires a.txid == b.txid && a.commitTs == b.commitTs
    requires Changes(a.body) == Changes(b.body)
    requires Messages(a.body) == Messages(b.body)
    ensures MsgsOf(cfg, a) == MsgsOf(cfg, b)
  {
    PendingRowsOfChanges(cfg.catalog, a.body);
    PendingRowsOfChanges(cfg.catalog, b.body);
    StampOfMessages(a.body);
    StampOfMessages(b.body);
  }

  /** A transactional message frame with the contract's prefix whose content parses. */
  ghost predicate ValidStamp(f: Frame) {
    f.Message? && f.flags % 2 == 1 && f.prefix == "wamn.causation" && f.content.Some?
  }

  /** `c` is the content of the last valid stamp of a body, or None without one. */
  ghost predicate LastStamp(body: seq<Frame>, c: Option<Causation>) {
    && (c == None <==> forall i :: 0 <= i < |body| ==> !ValidStamp(body[i]))
    && forall i :: 0 <= i < |body| && ValidStamp(body[i]) && (forall j :: i < j < |body| ==> !ValidStamp(body[j])) ==>
         c == body[i].content
  }

  lemma {:induction false} StampTakes(body: seq<Frame>, f: Frame)
    requires ValidStamp(f)
    ensures LastStamp(body + [f], f.content)
  {
    assert (body + [f])[|body|] == f;
  }

  lemma {:induction false} StampStays(body: seq<Frame>, f: Frame, c: Option<Causation>)
    requires LastStamp(body, c) && !ValidStamp(f)
    ensures LastStamp(body + [f], c)
  {
    var all := body + [f];
    assert all[|body|] == f && forall i :: 0 <= i < |body| ==> all[i] == body[i];
    if c.Some? {
      var i :| 0 <= i < |body| && ValidStamp(body[i]);
      assert ValidStamp(all[i]);
    }
  }

  lemma {:induction false} ValidStampIsStamp(f: Frame)
    ensures ValidStamp(f) <==> IsStamp(f)
  {
  }

  lemma {:induction false} StampIsTheLast(body: seq<Frame>)
    ensures LastStamp(body, Stamp(body))
  {
    if body != [] {
      var rest, last := body[..|body| - 1], body[|body| - 1];
      StampIsTheLast(rest);
      ValidStampIsStamp(last);
      assert rest + [last] == body;
      if IsStamp(last) {
        StampTakes(rest, last);
      } else {
        StampStays(rest, last, Stamp(rest));
      }
    }
  }

  /** Every message of a transaction carries the stamp of the last valid
      transactional causation frame, or none when there is no such frame. */
  lemma {:induction false} EveryRowCarriesTheLastStamp(cfg: Config, o: Open, m: Msg)
    requires m in MsgsOf(cfg, o)
    ensures LastStamp(o.body, m.causation)
  {
    StampIsTheLast(o.body);
  }

  // ----- Accounting of one transaction body

  function Get(m: map<string, nat>, k: string): nat {
    if k in m then m[k] else 0
  }

  function Bump(m: map<string, nat>, k: string): map<string, nat> {
    m[k := Get(m, k) + 1]
  }

  /** The counts of both maps, added name by name. */
  function Merge(a: map<string, nat>, b: map<string, nat>): map<string, nat> {
    map k | k in a.Keys + b.Keys :: Get(a, k) + Get(b, k)
  }

  function Identity(c: Classification): string
    requires c.Excluded?
  {
    c.packageId + "::" + c.relationId
  }

  predicate IsExcluded(catalog: Catalog, f: Frame) {
    f.Change? && !ControlOwned(f) && f.oid in catalog && catalog[f.oid].Excluded?
  }

  function ExcludedCounts(catalog: Catalog, body: seq<Frame>): map<string, nat> {
    if body == [] then map[]
    else
      var f := body[|body| - 1];
      var rest := ExcludedCounts(catalog, body[..|body| - 1]);
      if IsExcluded(catalog, f) then Bump(rest, Identity(catalog[f.oid])) else rest
  }

  function ControlRows(body: seq<Frame>): nat {
    if body == [] then 0
    else
      var f := body[|body| - 1];
      ControlRows(body[..|body| - 1]) + (if f.Change? && ControlOwned(f) then 1 else 0)
  }

  /** The sum of all counts of a map. */
  ghost function Total(m: map<string, nat>): nat
    decreases |m.Keys|
  {
    if m.Keys == {} then 0
    else
      var k :| k in m.Keys;
      assert (m - {k}).Keys == m.Keys - {k};
      m[k] + Total(m - {k})
  }

  lemma {:induction false} TotalSplit(m: map<string, nat>, k: string)
    requires k in m
    ensures Total(m) == m[k] + Total(m - {k})
    decreases |m.Keys|
  {
    assert m.Keys != {};
    var j :| j in m.Keys && Total(m) == m[j] + Total(m - {j});
    assert (m - {j}).Keys == m.Keys - {j};
    assert (m - {k}).Keys == m.Keys - {k};
    if j != k {
      TotalSplit(m - {j}, k);
      TotalSplit(m - {k}, j);
      assert (m - {j}) - {k} == (m - {k}) - {j};
    }
  }

  lemma {:induction false} TotalUpdate(m: map<string, nat>, k: string, v: nat)
    ensures Total(m[k := v]) == Total(m) - Get(m, k) + v
  {
    TotalSplit(m[k := v], k);
    assert m[k := v] - {k} == m - {k};
    if k in m {
      TotalSplit(m, k);
    } else {
      assert m - {k} == m;
    }
  }

  lemma {:induction false} TotalMerge(a: map<string, nat>, b: map<string, nat>)
    ensures Total(Merge(a, b)) == Total(a) + Total(b)
    decreases |b.Keys|
  {
    if b.Keys == {} {
      assert Merge(a, b) == a;
    } else {
      var k :| k in b.Keys;
      var rest := b - {k};
      assert rest.Keys == b.Keys - {k};
      TotalSplit(b, k);
      TotalMerge(a, rest);
      TotalUpdate(Merge(a, rest), k, Get(a, k) + b[k]);
      MergeOne(a, b, k);
    }
  }

  lemma {:induction false} MergeOne(a: map<string, nat>, b: map<string, nat>, k: string)
    requires k in b
    ensures Merge(a, b) == Merge(a, b - {k})[k := Get(a, k) + b[k]]
    ensures Get(Merge(a, b - {k}), k) == Get(a, k)
  {
    var whole, part := Merge(a, b), Merge(a, b - {k})[k := Get(a, k) + b[k]];
    assert whole.Keys == part.Keys;
    forall j | j in whole ensures whole[j] == part[j] {
    }
  }

  /** Every change that is not control-owned has a classification. */
  predicate Classified(catalog: Catalog, body: seq<Frame>) {
    forall i :: 0 <= i < |body| && body[i].Change? && !ControlOwned(body[i]) ==> body[i].oid in catalog
  }

  lemma {:induction false} RowsConserved(catalog: Catalog, body: seq<Frame>)
    requires Classified(catalog, body)
    ensures |Changes(body)| == |PendingRows(catalog, body)| + Total(ExcludedCounts(catalog, body)) + ControlRows(body)
    decreases |body|
  {
    if body != [] {
      var rest, last := body[..|body| - 1], body[|body| - 1];
      assert forall i :: 0 <= i < |rest| ==> rest[i] == body[i];
      RowsConserved(catalog, rest);
      if IsExcluded(catalog, last) {
        var counts, name := ExcludedCounts(catalog, rest), Identity(catalog[last.oid]);
        TotalUpdate(counts, name, Get(counts, name) + 1);
      }
    }
  }

  /** How many frames of a body are rows of the excluded relation named `name`. */
  ghost function RowsExcludedAs(catalog: Catalog, body: seq<Frame>, name: string): nat {
    if body == [] then 0
    else
      var f := body[|body| - 1];
      RowsExcludedAs(catalog, body[..|body| - 1], name) +
      (if && f.Change? && f.table != CONTROL_ENTITY_MAP && f.table != CONTROL_EXCLUSION_MAP && f.oid in catalog
          && catalog[f.oid].Excluded? && name == catalog[f.oid].packageId + "::" + catalog[f.oid].relationId
       then 1 else 0)
  }

  /** The exclusions of a transaction are counted name by name, and no name is
      listed without a row. */
  lemma {:induction false} ExclusionsAreCounted(catalog: Catalog, body: seq<Frame>, name: string)
    ensures Get(ExcludedCounts(catalog, body), name) == RowsExcludedAs(catalog, body, name)
    ensures name in ExcludedCounts(catalog, body) <==> RowsExcludedAs(catalog, body, name) > 0
  {
    if body != [] {
      ExclusionsAreCounted(catalog, body[..|body| - 1], name);
    }
  }

  /** Each change frame of a classified body is published, excluded or
      control-owned, and counted exactly once. */
  lemma {:induction false} BodyConserved(cfg: Config, o: Open)
    requires Classified(cfg.catalog, o.body)
    ensures |Changes(o.body)| ==
            |MsgsOf(cfg, o)| + Total(ExcludedCounts(cfg.catalog, o.body)) + ControlRows(o.body)
  {
    RowsConserved(cfg.catalog, o.body);
  }
}
