/**
 * The mandatory tenant scope: a rewrite of query arguments, the soft-delete rewrite it composes with,
 * and a small semantics of queries to say what the rewrites mean.
 */
module TenantScope {
  import opened Wrappers

  type OrgId = nat
  type RowId = nat

  // ---------------------------------------------------------------------------------------------
  // Query arguments
  // ---------------------------------------------------------------------------------------------

  /** A value given for `organizationId`: absent, explicit null, a literal, or a filter object. */
  datatype OwnerFilter = Undefined | Null | Literal(org: OrgId) | NonLiteral(orgs: set<OrgId>)

  /** `deletedAt` in a where clause; an own property that is undefined filters nothing. */
  datatype DeletedFilter = NotGiven | GivenUndefined | GivenNull | GivenNotNull

  /** Everything else in a where clause, nested to any depth. It may mention owners and deletion too. */
  datatype Filter =
    | AllOf(parts: seq<Filter>)
    | AnyOf(parts: seq<Filter>)
    | Not(part: Filter)
    | FieldIn(name: string, values: set<int>)
    | OwnerIn(owners: set<Option<OrgId>>)
    | IsDeleted

  datatype Where = Where(owner: OwnerFilter, deletedAt: DeletedFilter, rest: Filter)

  /** One element of `data`: a record, or something that is not one and is skipped. */
  datatype DataRow =
    | NotARecord
    | DataRow(id: RowId, owner: OwnerFilter, connectsOrganization: bool, fields: map<string, int>)

  /** What an update writes. The owner column is not among it. */
  datatype Patch = Patch(fields: map<string, int>, deleted: Option<bool>)

  datatype Args = Args(where: Option<Where>, data: seq<DataRow>, create: DataRow, update: Patch)

  datatype Operation =
    | FindUnique | FindUniqueOrThrow | FindFirst | FindFirstOrThrow | FindMany | Count | Aggregate | GroupBy
    | Update | UpdateMany | Delete | DeleteMany
    | Create | CreateMany | CreateManyAndReturn
    | Upsert
    | Unsupported(name: string)

  predicate IsRead(op: Operation) {
    op in {FindUnique, FindUniqueOrThrow, FindFirst, FindFirstOrThrow, FindMany, Count, Aggregate, GroupBy}
  }

  predicate IsFilterOperation(op: Operation) {
    IsRead(op) || op in {Update, UpdateMany, Delete, DeleteMany}
  }

  predicate IsCreateOperation(op: Operation) {
    op in {Create, CreateMany, CreateManyAndReturn}
  }

  datatype Model = Model(scoped: bool, nullableGlobalOwner: bool, softDelete: bool)

  datatype ScopeError = OtherOrganization | NotProvable | ConnectsRelation | NotScopable | NoContext | NoOrganization

  const EMPTY_WHERE := Where(Undefined, NotGiven, AllOf([]))
  const EMPTY_ARGS := Args(None, [], NotARecord, Patch(map[], None))

  // ---------------------------------------------------------------------------------------------
  // The rewrites
  // ---------------------------------------------------------------------------------------------

  /** `assertAgrees`. */
  function AssertAgrees(existing: OwnerFilter, org: OrgId): Option<ScopeError> {
    match existing
    case Undefined => None
    case Null => None
    case Literal(o) => if o == org then None else Some(OtherOrganization)
    case NonLiteral(_) => Some(NotProvable)
  }

  /** What scoping leaves in an `organizationId` slot, of a where clause or of a data row. */
  function ScopeOwner(model: Model, existing: OwnerFilter, org: OrgId): Result<OwnerFilter, ScopeError> {
    if existing == Null && model.nullableGlobalOwner then Ok(Null)
    else match AssertAgrees(existing, org)
      case Some(e) => Err(e)
      case None => Ok(Literal(org))
  }

  function ScopeWhere(model: Model, args: Args, org: OrgId): Result<Args, ScopeError> {
    var where := if args.where.Some? then args.where.value else EMPTY_WHERE;
    match ScopeOwner(model, where.owner, org)
    case Err(e) => Err(e)
    case Ok(owner) => Ok(args.(where := Some(where.(owner := owner))))
  }

  function ScopeDataRow(model: Model, row: DataRow, org: OrgId): Result<DataRow, ScopeError> {
    if row.NotARecord? then Ok(row)
    else if row.connectsOrganization then Err(ConnectsRelation)
    else match ScopeOwner(model, row.owner, org)
      case Err(e) => Err(e)
      case Ok(owner) => Ok(row.(owner := owner))
  }

  /** `scopeCreateData` on a list of rows: the first row that is refused refuses the operation. */
  function ScopeData(model: Model, rows: seq<DataRow>, org: OrgId): (r: Result<seq<DataRow>, ScopeError>)
    ensures r.Ok? ==> |r.value| == |rows|
    ensures r.Ok? ==> forall i :: 0 <= i < |rows| ==> ScopeDataRow(model, rows[i], org) == Ok(r.value[i])
    ensures r.Err? ==> exists i :: 0 <= i < |rows| && ScopeDataRow(model, rows[i], org).Err?
  {
    if rows == [] then Ok([])
    else match ScopeDataRow(model, rows[0], org)
      case Err(e) => Err(e)
      case Ok(first) =>
        match ScopeData(model, rows[1..], org)
        case Err(e) => Err(e)
        case Ok(others) => Ok([first] + others)
  }

  /** `applyTenantScope`; a missing argument object is treated as an empty one. */
  function ApplyTenantScope(model: Model, op: Operation, given: Option<Args>, org: OrgId): Result<Args, ScopeError> {
    var args := if given.Some? then given.value else EMPTY_ARGS;
    if op == Upsert then
      match ScopeWhere(model, args, org)
      case Err(e) => Err(e)
      case Ok(scoped) =>
        match ScopeDataRow(model, args.create, org)
        case Err(e) => Err(e)
        case Ok(row) => Ok(scoped.(create := row))
    else if IsFilterOperation(op) then
      ScopeWhere(model, args, org)
    else if IsCreateOperation(op) then
      match ScopeData(model, args.data, org)
      case Err(e) => Err(e)
      case Ok(rows) => Ok(args.(data := rows))
    else
      Err(NotScopable)
  }

  datatype Context = NoRequest | UnscopedWork | InRequest(org: Option<OrgId>)

  predicate OwnedByNobody(row: DataRow) {
    row.DataRow? && row.owner == Null
  }

  predicate ExplicitlyGlobal(model: Model, op: Operation, given: Option<Args>) {
    && model.nullableGlobalOwner
    && given.Some?
    && var args := given.value;
       || (IsFilterOperation(op) && args.where.Some? && args.where.value.owner == Null)
       || (IsCreateOperation(op) && forall i :: 0 <= i < |args.data| ==> OwnedByNobody(args.data[i]))
       || (op == Upsert && args.where.Some? && args.where.value.owner == Null && OwnedByNobody(args.create))
  }

  /** `resolveScopeOrganization`: `Ok(None)` runs the query as it is. */
  function ResolveScope(model: Model, op: Operation, given: Option<Args>, context: Context): Result<Option<OrgId>, ScopeError> {
    if !model.scoped || context.UnscopedWork? then Ok(None)
    else if context.NoRequest? then Err(NoContext)
    else if context.org.None? then
      if ExplicitlyGlobal(model, op, given) then Ok(None) else Err(NoOrganization)
    else Ok(Some(context.org.value))
  }

  /** `activeWhere` under the soft-delete extension; a missing argument object is left alone. */
  function ApplySoftDelete(model: Model, op: Operation, given: Option<Args>): Option<Args> {
    if !model.softDelete || !IsFilterOperation(op) || given.None? then given
    else
      var where := if given.value.where.Some? then given.value.where.value else EMPTY_WHERE;
      Some(given.value.(where := Some(
        if where.deletedAt == NotGiven then where.(deletedAt := GivenNull) else where)))
  }

  // ---------------------------------------------------------------------------------------------
  // What a query means
  // ---------------------------------------------------------------------------------------------

  datatype Row = Row(owner: Option<OrgId>, deleted: bool, fields: map<string, int>)

  type Table = map<RowId, Row>

  predicate Holds(f: Filter, row: Row) {
    match f
    case AllOf(parts) => forall p | p in parts :: Holds(p, row)
    case AnyOf(parts) => exists p | p in parts :: Holds(p, row)
    case Not(part) => !Holds(part, row)
    case FieldIn(name, values) => name in row.fields && row.fields[name] in values
    case OwnerIn(owners) => row.owner in owners
    case IsDeleted => row.deleted
  }

  predicate OwnerMatches(f: OwnerFilter, owner: Option<OrgId>) {
    match f
    case Undefined => true
    case Null => owner == None
    case Literal(org) => owner == Some(org)
    case NonLiteral(orgs) => owner.Some? && owner.value in orgs
  }

  predicate DeletedMatches(f: DeletedFilter, deleted: bool) {
    (f == GivenNull ==> !deleted) && (f == GivenNotNull ==> deleted)
  }

  predicate Matches(where: Option<Where>, row: Row) {
    where.Some? ==>
      && OwnerMatches(where.value.owner, row.owner)
      && DeletedMatches(where.value.deletedAt, row.deleted)
      && Holds(where.value.rest, row)
  }

  function Matched(where: Option<Where>, t: Table): Table {
    map id | id in t && Matches(where, t[id]) :: t[id]
  }

  function Patched(row: Row, patch: Patch): Row {
    Row(row.owner, if patch.deleted.Some? then patch.deleted.value else row.deleted, row.fields + patch.fields)
  }

  /** What a caller can observe: the rows a query selects or writes, or a uniqueness error. */
  datatype Output = Rows(rows: Table) | UniqueViolation

  function NewRow(data: DataRow): Row
    requires data.DataRow?
  {
    Row(if data.owner.Literal? then Some(data.owner.org) else None, false, data.fields)
  }

  function NewRows(data: seq<DataRow>): (t: Table)
    ensures forall id :: id in t ==> exists d :: d in data && d.DataRow? && d.id == id && t[id] == NewRow(d)
  {
    if data == [] then map[]
    else
      var others := NewRows(data[1..]);
      if data[0].DataRow? then others[data[0].id := NewRow(data[0])] else others
  }

  predicate DistinctIds(data: seq<DataRow>) {
    forall i, j | 0 <= i < j < |data| && data[i].DataRow? && data[j].DataRow? :: data[i].id != data[j].id
  }

  function Insert(data: seq<DataRow>, t: Table): (Output, Table) {
    if DistinctIds(data) && NewRows(data).Keys !! t.Keys then (Rows(NewRows(data)), t + NewRows(data))
    else (UniqueViolation, t)
  }

  function Write(selected: Table, patch: Patch, t: Table): (Output, Table) {
    var written := map id | id in selected :: Patched(selected[id], patch);
    (Rows(written), t + written)
  }

  function Execute(op: Operation, args: Args, t: Table): (Output, Table) {
    var selected := Matched(args.where, t);
    if IsRead(op) then (Rows(selected), t)
    else if op == Update || op == UpdateMany then Write(selected, args.update, t)
    else if op == Delete || op == DeleteMany then (Rows(selected), t - selected.Keys)
    else if IsCreateOperation(op) then Insert(args.data, t)
    else if op == Upsert then
      if selected != map[] then Write(selected, args.update, t) else Insert([args.create], t)
    else (Rows(map[]), t)
  }

  /** The rows of one owner: an organization, or nobody. */
  function Owned(t: Table, owner: Option<OrgId>): Table {
    map id | id in t && t[id].owner == owner :: t[id]
  }

  function NotOwned(t: Table, owners: set<Option<OrgId>>): Table {
    map id | id in t && t[id].owner !in owners :: t[id]
  }

  // ---------------------------------------------------------------------------------------------
  // Non-interference
  // ---------------------------------------------------------------------------------------------

  /** Whose rows a scoped filter addresses: the resolved organization's, or nobody's if it says so. */
  function Addressee(model: Model, given: Option<Args>, org: OrgId): Option<OrgId> {
    if model.nullableGlobalOwner && given.Some? && given.value.where.Some? && given.value.where.value.owner == Null
    then None else Some(org)
  }

  /** A scoped filter selects rows of its addressee only, whatever else it says, at whatever depth. */
  lemma ScopedSelection(model: Model, op: Operation, given: Option<Args>, org: OrgId, t: Table)
    requires IsFilterOperation(op) || op == Upsert
    requires ApplyTenantScope(model, op, given, org).Ok?
    ensures var args := ApplyTenantScope(model, op, given, org).value; var who := Addressee(model, given, org);
      && Matched(args.where, t) == Matched(args.where, Owned(t, who))
      && (forall id :: id in Matched(args.where, t) ==> t[id].owner == who)
      && (given.Some? ==> args.update == given.value.update && args.data == given.value.data)
  {
  }

  /**
   * For every filter operation, scoping makes the query behave exactly as if the addressee's rows
   * were the whole table: same output, same change to them, and no change to any other row.
   */
  lemma ScopedFilterIsLocal(model: Model, op: Operation, given: Option<Args>, org: OrgId, t: Table)
    requires IsFilterOperation(op) && ApplyTenantScope(model, op, given, org).Ok?
    ensures var args := ApplyTenantScope(model, op, given, org).value; var who := Addressee(model, given, org);
      var (out, after) := Execute(op, args, t);
      var (alone, aloneAfter) := Execute(op, args, Owned(t, who));
      && out == alone
      && Owned(after, who) == aloneAfter
      && NotOwned(after, {who}) == NotOwned(t, {who})
  {
    var args := ApplyTenantScope(model, op, given, org).value;
    var who := Addressee(model, given, org);
    ScopedSelection(model, op, given, org, t);
    var selected := Matched(args.where, t);
    if IsRead(op) {
    } else if op == Update || op == UpdateMany {
      WriteIsLocal(selected, args.update, t, who);
    } else {
      var after := t - selected.Keys;
      assert Owned(after, who) == Owned(t, who) - selected.Keys;
      assert NotOwned(after, {who}) == NotOwned(t, {who});
    }
  }

  lemma WrittenRows(selected: Table, patch: Patch, t: Table)
    requires forall id :: id in selected ==> id in t && t[id] == selected[id]
    ensures Write(selected, patch, t).1.Keys == t.Keys
    ensures forall id :: id in t ==>
      Write(selected, patch, t).1[id] == if id in selected then Patched(t[id], patch) else t[id]
    ensures forall u :: Write(selected, patch, t).0 == Write(selected, patch, u).0
  {
  }

  lemma WriteIsLocal(selected: Table, patch: Patch, t: Table, who: Option<OrgId>)
    requires forall id :: id in selected ==> id in t && t[id] == selected[id] && t[id].owner == who
    ensures Owned(Write(selected, patch, t).1, who) == Write(selected, patch, Owned(t, who)).1
    ensures NotOwned(Write(selected, patch, t).1, {who}) == NotOwned(t, {who})
  {
    WrittenRows(selected, patch, t);
    WrittenRows(selected, patch, Owned(t, who));
    hide Write;
    var after, alone := Write(selected, patch, t).1, Write(selected, patch, Owned(t, who)).1;
    assert forall id :: id in t ==> after[id].owner == t[id].owner;
    assert Owned(after, who).Keys == alone.Keys;
  }

  /** Two databases that agree on the addressee's rows cannot be told apart. */
  lemma ScopedFilterNonInterference(model: Model, op: Operation, given: Option<Args>, org: OrgId, t: Table, u: Table)
    requires IsFilterOperation(op) && ApplyTenantScope(model, op, given, org).Ok?
    requires Owned(t, Addressee(model, given, org)) == Owned(u, Addressee(model, given, org))
    ensures var args := ApplyTenantScope(model, op, given, org).value; var who := Addressee(model, given, org);
      && Execute(op, args, t).0 == Execute(op, args, u).0
      && Owned(Execute(op, args, t).1, who) == Owned(Execute(op, args, u).1, who)
  {
    ScopedFilterIsLocal(model, op, given, org, t);
    ScopedFilterIsLocal(model, op, given, org, u);
  }

  /** The query as its author wrote it, run on the organization's rows alone. */
  function Original(given: Option<Args>): Args {
    if given.Some? then given.value else EMPTY_ARGS
  }

  /** The author asked for rows without an owner on a model that has none such. */
  predicate AsksForNobody(model: Model, given: Option<Args>) {
    && !model.nullableGlobalOwner
    && given.Some? && given.value.where.Some? && given.value.where.value.owner == Null
  }

  function WithoutOwner(args: Args): Args
    requires args.where.Some?
  {
    args.(where := Some(args.where.value.(owner := Undefined)))
  }

  /**
   * The rewritten query against the original one on the organization's rows: they select the same
   * rows exactly unless an explicit null owner was overwritten and some row of the organization
   * satisfies the rest of the filter.
   */
  lemma ScopingPreservesMeaning(model: Model, op: Operation, given: Option<Args>, org: OrgId, t: Table)
    requires IsFilterOperation(op) && ApplyTenantScope(model, op, given, org).Ok?
    ensures var args := ApplyTenantScope(model, op, given, org).value; var mine := Owned(t, Addressee(model, given, org));
      Matched(args.where, t) == Matched(Original(given).where, mine) <==>
        !(AsksForNobody(model, given) && Matched(WithoutOwner(given.value).where, mine) != map[])
  {
    var args := ApplyTenantScope(model, op, given, org).value;
    var mine := Owned(t, Addressee(model, given, org));
    ScopedSelection(model, op, given, org, t);
    if AsksForNobody(model, given) {
      assert Matched(Original(given).where, mine) == map[];
      assert Matched(args.where, mine) == Matched(WithoutOwner(given.value).where, mine);
    } else {
      assert forall id :: id in mine ==> (Matches(args.where, mine[id]) <==> Matches(Original(given).where, mine[id]));
      assert Matched(args.where, mine) == Matched(Original(given).where, mine);
    }
  }

  /** A row created under the scope belongs to the organization, or to nobody if that was spelled out. */
  lemma ScopedRowsAreOwned(model: Model, data: seq<DataRow>, org: OrgId)
    requires ScopeData(model, data, org).Ok?
    ensures forall id :: id in NewRows(ScopeData(model, data, org).value) ==>
      var owner := NewRows(ScopeData(model, data, org).value)[id].owner;
      owner == Some(org) || (owner == None && model.nullableGlobalOwner)
  {
    var rows := ScopeData(model, data, org).value;
    forall id | id in NewRows(rows)
      ensures NewRows(rows)[id].owner == Some(org) || (NewRows(rows)[id].owner == None && model.nullableGlobalOwner)
    {
      hide NewRows;
      var d :| d in rows && d.DataRow? && d.id == id && NewRows(rows)[id] == NewRow(d);
      var i :| 0 <= i < |rows| && rows[i] == d;
      assert ScopeDataRow(model, data[i], org) == Ok(rows[i]);
    }
  }

  /** The owners a scoped write may add rows to. */
  function Writable(model: Model, org: OrgId): set<Option<OrgId>> {
    if model.nullableGlobalOwner then {Some(org), None} else {Some(org)}
  }

  /** Every row there was is still there, as it was. */
  predicate Extends(after: Table, t: Table) {
    forall id :: id in t ==> id in after && after[id] == t[id]
  }

  /**
   * Creates change no row at all, of whatever owner. They see one thing of the rows they may not
   * add to: a create succeeds as on the organization's own rows exactly when no id it uses is taken
   * by a row outside them.
   */
  lemma ScopedCreateIsLocal(model: Model, op: Operation, given: Option<Args>, org: OrgId, t: Table)
    requires IsCreateOperation(op) && ApplyTenantScope(model, op, given, org).Ok?
    ensures var args := ApplyTenantScope(model, op, given, org).value; var owners := Writable(model, org);
      var (out, after) := Execute(op, args, t);
      var mine := t - NotOwned(t, owners).Keys;
      && Extends(after, t)
      && NotOwned(after, owners) == NotOwned(t, owners)
      && (out == Execute(op, args, mine).0 <==>
            NewRows(args.data).Keys !! NotOwned(t, owners).Keys || Execute(op, args, mine).0 == UniqueViolation)
  {
    var args := ApplyTenantScope(model, op, given, org).value;
    ScopedDataIsScoped(model, op, given, org);
    ScopedRowsAreOwned(model, Original(given).data, org);
    CreateInserts(op, args, t);
    CreateInserts(op, args, t - NotOwned(t, Writable(model, org)).Keys);
    hide NewRows, NotOwned, Execute, Insert, ApplyTenantScope, ScopeData;
    InsertIsLocal(args.data, t, Writable(model, org));
  }

  lemma ScopedDataIsScoped(model: Model, op: Operation, given: Option<Args>, org: OrgId)
    requires IsCreateOperation(op) && ApplyTenantScope(model, op, given, org).Ok?
    ensures ScopeData(model, Original(given).data, org) == Ok(ApplyTenantScope(model, op, given, org).value.data)
  {
  }

  lemma CreateInserts(op: Operation, args: Args, t: Table)
    requires IsCreateOperation(op)
    ensures Execute(op, args, t) == Insert(args.data, t)
  {
  }

  /** An insert sees one thing of the rows outside the owners it may add to: which ids they take. */
  lemma InsertIsLocal(data: seq<DataRow>, t: Table, owners: set<Option<OrgId>>)
    requires forall id :: id in NewRows(data) ==> NewRows(data)[id].owner in owners
    ensures NotOwned(Insert(data, t).1, owners) == NotOwned(t, owners) && Extends(Insert(data, t).1, t)
    ensures var mine := t - NotOwned(t, owners).Keys;
      Insert(data, t).0 == Insert(data, mine).0 <==>
        NewRows(data).Keys !! NotOwned(t, owners).Keys || Insert(data, mine).0 == UniqueViolation
  {
    var mine := t - NotOwned(t, owners).Keys;
    assert t.Keys == mine.Keys + NotOwned(t, owners).Keys;
    hide NewRows, DistinctIds;
    assert NotOwned(Insert(data, t).1, owners) == NotOwned(t, owners);
  }

  /** An upsert changes the rows it selects, or none; it sees of foreign rows what a create sees. */
  lemma ScopedUpsertIsLocal(model: Model, given: Option<Args>, org: OrgId, t: Table)
    requires ApplyTenantScope(model, Upsert, given, org).Ok?
    ensures var args := ApplyTenantScope(model, Upsert, given, org).value; var owners := Writable(model, org);
      var (out, after) := Execute(Upsert, args, t);
      var mine := t - NotOwned(t, owners).Keys;
      && Extends(after, t - Matched(args.where, t).Keys)
      && NotOwned(after, owners) == NotOwned(t, owners)
      && (out == Execute(Upsert, args, mine).0 <==>
            || Matched(args.where, t) != map[]
            || NewRows([args.create]).Keys !! NotOwned(t, owners).Keys
            || Execute(Upsert, args, mine).0 == UniqueViolation)
  {
    var args := ApplyTenantScope(model, Upsert, given, org).value;
    ScopedSelection(model, Upsert, given, org, t);
    OneNewRow(args.create);
    UpsertIsLocal(args, t, Writable(model, org), Addressee(model, given, org));
  }

  /** An upsert that finds rows updates them and them alone. */
  lemma UpdateBranchIsLocal(args: Args, t: Table, owners: set<Option<OrgId>>, who: Option<OrgId>)
    requires who in owners && forall id :: id in Matched(args.where, t) ==> t[id].owner == who
    requires Matched(args.where, t) != map[]
    ensures Extends(Execute(Upsert, args, t).1, t - Matched(args.where, t).Keys)
    ensures NotOwned(Execute(Upsert, args, t).1, owners) == NotOwned(t, owners)
    ensures Execute(Upsert, args, t).0 == Execute(Upsert, args, t - NotOwned(t, owners).Keys).0
  {
    var mine := t - NotOwned(t, owners).Keys;
    var selected := Matched(args.where, t);
    assert Matched(args.where, mine) == selected;
    UpsertWrites(args, t);
    UpsertWrites(args, mine);
    hide Execute, Matched, Write, Patched;
    WrittenRows(selected, args.update, t);
    WriteIsLocal(selected, args.update, t, who);
    hide NotOwned;
    NotOwnedWidens(Write(selected, args.update, t).1, t, {who}, owners);
  }

  lemma UpsertWrites(args: Args, t: Table)
    requires Matched(args.where, t) != map[]
    ensures Execute(Upsert, args, t) == Write(Matched(args.where, t), args.update, t)
  {
  }

  lemma UpsertInserts(args: Args, t: Table)
    requires Matched(args.where, t) == map[]
    ensures Execute(Upsert, args, t) == Insert([args.create], t)
  {
  }

  lemma UpsertIsLocal(args: Args, t: Table, owners: set<Option<OrgId>>, who: Option<OrgId>)
    requires who in owners && forall id :: id in Matched(args.where, t) ==> t[id].owner == who
    requires forall id :: id in NewRows([args.create]) ==> NewRows([args.create])[id].owner in owners
    ensures
      var (out, after) := Execute(Upsert, args, t);
      var mine := t - NotOwned(t, owners).Keys;
      && Extends(after, t - Matched(args.where, t).Keys)
      && NotOwned(after, owners) == NotOwned(t, owners)
      && (out == Execute(Upsert, args, mine).0 <==>
            || Matched(args.where, t) != map[]
            || NewRows([args.create]).Keys !! NotOwned(t, owners).Keys
            || Execute(Upsert, args, mine).0 == UniqueViolation)
  {
    var mine := t - NotOwned(t, owners).Keys;
    var selected := Matched(args.where, t);
    if selected != map[] {
      UpdateBranchIsLocal(args, t, owners, who);
    } else {
      assert Matched(args.where, mine) == map[];
      UpsertInserts(args, t);
      UpsertInserts(args, mine);
      InsertIsLocal([args.create], t, owners);
      hide Matched, NotOwned, NewRows, Execute, Insert;
    }
  }

  lemma NotOwnedWidens(t: Table, u: Table, few: set<Option<OrgId>>, many: set<Option<OrgId>>)
    requires NotOwned(t, few) == NotOwned(u, few) && few <= many
    ensures NotOwned(t, many) == NotOwned(u, many)
  {
    assert NotOwned(t, many) == NotOwned(NotOwned(t, few), many);
    assert NotOwned(u, many) == NotOwned(NotOwned(u, few), many);
  }

  lemma OneNewRow(row: DataRow)
    ensures NewRows([row]) == if row.DataRow? then map[row.id := NewRow(row)] else map[]
  {
    assert [row][1..] == [];
  }

  /** A scoped model is only ever queried unscoped by trusted work, or for rows declared ownerless. */
  lemma ScopeFailsClosed(model: Model, op: Operation, given: Option<Args>, context: Context)
    requires model.scoped
    ensures ResolveScope(model, op, given, context) == Ok(None) <==>
      context.UnscopedWork? || (context == InRequest(None) && ExplicitlyGlobal(model, op, given))
    ensures context == InRequest(None) && IsFilterOperation(op) && ResolveScope(model, op, given, context) == Ok(None) ==>
      forall t: Table :: forall id :: id in Matched(given.value.where, t) ==> t[id].owner == None
  {
  }

  /**
   * A query that a request without an organization may run unscoped stays among the ownerless rows:
   * it selects and changes those alone, and the rows it adds have no owner.
   */
  lemma UnscopedQueriesStayOwnerless(model: Model, op: Operation, given: Option<Args>, t: Table)
    requires model.scoped && ResolveScope(model, op, given, InRequest(None)) == Ok(None)
    ensures given.Some?
    ensures var (out, after) := Execute(op, given.value, t);
      NotOwned(after, {None}) == NotOwned(t, {None})
    ensures IsFilterOperation(op) ==>
      var (out, after) := Execute(op, given.value, t);
      var (alone, aloneAfter) := Execute(op, given.value, Owned(t, None));
      out == alone && Owned(after, None) == aloneAfter
  {
    ScopeFailsClosed(model, op, given, InRequest(None));
    var args := given.value;
    if IsCreateOperation(op) {
      CreateInserts(op, args, t);
      InsertIsLocal(args.data, t, {None});
    } else if op == Upsert {
      OneNewRow(args.create);
      UpsertIsLocal(args, t, {None}, None);
    } else {
      ScopedFilterIsLocal(model, op, given, 0, t);
    }
  }

  // ---------------------------------------------------------------------------------------------
  // Composition with the soft-delete rewrite
  // ---------------------------------------------------------------------------------------------

  function TenantThenSoftDelete(model: Model, op: Operation, given: Option<Args>, org: OrgId): Result<Args, ScopeError> {
    match ApplyTenantScope(model, op, given, org)
    case Err(e) => Err(e)
    case Ok(args) => Ok(ApplySoftDelete(model, op, Some(args)).value)
  }

  function SoftDeleteThenTenant(model: Model, op: Operation, given: Option<Args>, org: OrgId): Result<Args, ScopeError> {
    ApplyTenantScope(model, op, ApplySoftDelete(model, op, given), org)
  }

  /**
   * The two rewrites commute exactly when the soft-delete rewrite has an argument object to work
   * on: with none, only the installed order (tenant scope outermost) adds the deletion filter.
   */
  lemma RewritesCommute(model: Model, op: Operation, given: Option<Args>, org: OrgId)
    ensures TenantThenSoftDelete(model, op, given, org) == SoftDeleteThenTenant(model, op, given, org) <==>
      !(given.None? && model.softDelete && IsFilterOperation(op))
  {
  }

  /** `findMany()` without an argument object on a scoped, soft-deletable model: the orders differ. */
  lemma MissingArgumentsDoNotCommute()
    ensures var model := Model(true, false, true);
      TenantThenSoftDelete(model, FindMany, None, 1) != SoftDeleteThenTenant(model, FindMany, None, 1)
  {
    RewritesCommute(Model(true, false, true), FindMany, None, 1);
  }

  /** Asking for ownerless rows where there are none selects the organization's row instead. */
  lemma NullOwnerIsOverwritten()
    ensures var model := Model(true, false, false);
      var given := Some(EMPTY_ARGS.(where := Some(EMPTY_WHERE.(owner := Null))));
      var t: Table := map[0 := Row(Some(1), false, map[])];
      && ApplyTenantScope(model, FindMany, given, 1).Ok?
      && Matched(ApplyTenantScope(model, FindMany, given, 1).value.where, t) != Matched(Original(given).where, Owned(t, Some(1)))
  {
    var model := Model(true, false, false);
    var given := Some(EMPTY_ARGS.(where := Some(EMPTY_WHERE.(owner := Null))));
    var t: Table := map[0 := Row(Some(1), false, map[])];
    ScopingPreservesMeaning(model, FindMany, given, 1, t);
    assert 0 in Matched(WithoutOwner(given.value).where, Owned(t, Some(1)));
  }

  /** The rewritten query selects live rows of one owner only, in every table. */
  ghost predicate SelectsLiveRows(rewritten: Result<Args, ScopeError>, who: Option<OrgId>) {
    rewritten.Ok? ==>
      forall t: Table, id :: id in Matched(rewritten.value.where, t) ==> t[id].owner == who && !t[id].deleted
  }

  predicate MentionsDeletion(given: Option<Args>) {
    given.Some? && given.value.where.Some? && given.value.where.value.deletedAt != NotGiven
  }

  /** In the installed order a scoped filter selects live rows of its addressee only, unless it mentions deletion. */
  lemma InstalledOrderSelectsLiveRows(model: Model, op: Operation, given: Option<Args>, org: OrgId)
    requires model.softDelete && IsFilterOperation(op) && !MentionsDeletion(given)
    ensures SelectsLiveRows(TenantThenSoftDelete(model, op, given, org), Addressee(model, given, org))
  {
  }

  /** In the other order it does so exactly if there is an argument object. */
  lemma OtherOrderSelectsLiveRowsExactly(model: Model, op: Operation, given: Option<Args>, org: OrgId)
    requires model.softDelete && IsFilterOperation(op) && !MentionsDeletion(given)
    ensures SelectsLiveRows(SoftDeleteThenTenant(model, op, given, org), Addressee(model, given, org)) <==> given.Some?
  {
    if given.Some? {
      hide SelectsLiveRows, MentionsDeletion, Addressee;
      RewritesCommute(model, op, given, org);
      InstalledOrderSelectsLiveRows(model, op, given, org);
    } else {
      var rewritten := SoftDeleteThenTenant(model, op, given, org);
      var t: Table := map[0 := Row(Some(org), true, map[])];
      assert 0 in Matched(rewritten.value.where, t);
    }
  }

  // ---------------------------------------------------------------------------------------------
  // In place
  // ---------------------------------------------------------------------------------------------

  /** A data row as the caller's own object, which scoping mutates. */
  class DataRecord {
    var owner: OwnerFilter
    var connectsOrganization: bool

    constructor (owner: OwnerFilter, connectsOrganization: bool)
      ensures this.owner == owner && this.connectsOrganization == connectsOrganization
    {
      this.owner, this.connectsOrganization := owner, connectsOrganization;
    }
  }

  /** A row the rewrite refuses, and why. */
  predicate Refuses(model: Model, row: DataRecord, owner: OwnerFilter, org: OrgId, e: ScopeError)
    reads row
  {
    if row.connectsOrganization then e == ConnectsRelation else ScopeOwner(model, owner, org) == Err(e)
  }

  /**
   * `scopeCreateData` on the caller's objects. The same object may appear twice, and elements that
   * are not records are skipped. `at` rows are accepted and scoped; if that is not all of them, row
   * `at` is the one that refuses, and every record that is only there or later is as it was.
   */
  method ScopeCreateData(model: Model, rows: seq<DataRecord?>, org: OrgId) returns (refusal: Option<ScopeError>, at: nat)
    modifies set r: DataRecord | r in rows
    ensures forall r: DataRecord :: r in rows ==> r.connectsOrganization == old(r.connectsOrganization)
    ensures at <= |rows| && (refusal.None? <==> at == |rows|)
    ensures forall r: DataRecord :: r in rows[..at] ==>
              !r.connectsOrganization && Ok(r.owner) == ScopeOwner(model, old(r.owner), org)
    ensures forall r: DataRecord :: r in rows && r !in rows[..at] ==> r.owner == old(r.owner)
    ensures refusal.Some? ==>
              var row := rows[at]; row != null && row !in rows[..at] && Refuses(model, row, old(row.owner), org, refusal.value)
  {
    for i := 0 to |rows|
      invariant forall r: DataRecord :: r in rows ==> r.connectsOrganization == old(r.connectsOrganization)
      invariant forall r: DataRecord :: r in rows[..i] ==>
                  !r.connectsOrganization && Ok(r.owner) == ScopeOwner(model, old(r.owner), org)
      invariant forall r: DataRecord :: r in rows && r !in rows[..i] ==> r.owner == old(r.owner)
    {
      var record := rows[i];
      if record == null {
        continue;
      }
      if record.connectsOrganization {
        return Some(ConnectsRelation), i;
      }
      if record.owner == Null && model.nullableGlobalOwner {
        continue;
      }
      var disagreement := AssertAgrees(record.owner, org);
      if disagreement.Some? {
        return disagreement, i;
      }
      record.owner := Literal(org);
    }
    assert rows[..|rows|] == rows;
    return None, |rows|;
  }
}
