/**
 * The name-keyed containers of the schema package: `Database`, which holds the
 * tables and routines of one database by name, and `SchemaAwareDatabase`,
 * which holds one such container per schema and resolves `schema.table` names.
 */
module Databases {
  import opened Wrappers
  import opened OrderedMaps
  import opened Schema
  import Partition
  import Text

  // ---------------------------------------------------------------- invariants

  /** Every table is stored under its own name, as `add_table` stores it. */
  ghost predicate KeyedByName(tables: OrdMap<string, Table>) {
    forall n :: n in tables.m ==> tables.m[n].name == n
  }

  /** Every routine is stored under its own name, as `add_routine` stores it. */
  ghost predicate RoutinesKeyedByName(routines: OrdMap<string, Routine>) {
    forall n :: n in routines.m ==> routines.m[n].name == n
  }

  ghost predicate ContainersValid(tables: OrdMap<string, Table>, routines: OrdMap<string, Routine>) {
    tables.Valid() && routines.Valid() && KeyedByName(tables) && RoutinesKeyedByName(routines)
  }

  // ---------------------------------------------------------------- queries shared by both containers

  /** The (canonicalized) full names of `ts`, in order. */
  function FullNames(ts: seq<Table>, canon: Option<Canonicalizer>): (r: seq<string>)
    ensures |r| == |ts|
  {
    if ts == [] then [] else [Canon(canon, FullName(ts[0]))] + FullNames(ts[1..], canon)
  }

  lemma {:induction false} FullNamesAt(ts: seq<Table>, canon: Option<Canonicalizer>, i: nat)
    requires i < |ts|
    ensures FullNames(ts, canon)[i] == Canon(canon, FullName(ts[i]))
  {
    if i > 0 {
      FullNamesAt(ts[1..], canon, i - 1);
    }
  }

  /** `get_table_list(canonicalize)`: the (canonicalized) full name of every table, in insertion order. */
  function TableList(tables: OrdMap<string, Table>, canon: Option<Canonicalizer>): (r: seq<string>)
    requires tables.Valid()
    ensures |r| == |tables.keys|
  {
    FullNames(tables.Values(), canon)
  }

  /** The `i`-th listed name belongs to the `i`-th table inserted. */
  lemma TableListAt(tables: OrdMap<string, Table>, canon: Option<Canonicalizer>, i: nat)
    requires tables.Valid() && i < |tables.keys|
    ensures tables.keys[i] in tables.m
    ensures TableList(tables, canon)[i] == Canon(canon, FullName(tables.m[tables.keys[i]]))
  {
    FullNamesAt(tables.Values(), canon, i);
  }

  /** Every listed name is the (canonicalized) full name of a stored table. */
  lemma TableListOnlyStored(tables: OrdMap<string, Table>, canon: Option<Canonicalizer>, x: string)
    requires tables.Valid() && x in TableList(tables, canon)
    ensures exists n :: n in tables.m && x == Canon(canon, FullName(tables.m[n]))
  {
    var r := TableList(tables, canon);
    var i :| 0 <= i < |r| && r[i] == x;
    TableListAt(tables, canon, i);
  }

  /** Every stored table is listed by its (canonicalized) full name. */
  lemma TableListHasStored(tables: OrdMap<string, Table>, canon: Option<Canonicalizer>, n: string)
    requires tables.Valid() && n in tables.m
    ensures Canon(canon, FullName(tables.m[n])) in TableList(tables, canon)
  {
    var i :| 0 <= i < |tables.keys| && tables.keys[i] == n;
    TableListAt(tables, canon, i);
  }

  /**
   * Without a canonicalizer, the tables of a container without schemas are
   * listed by exactly the names they are stored under.
   */
  lemma TableListIsKeys(tables: OrdMap<string, Table>)
    requires tables.Valid() && KeyedByName(tables)
    requires forall n :: n in tables.m ==> tables.m[n].schema.None?
    ensures TableList(tables, None) == tables.keys
  {
    var r := TableList(tables, None);
    forall i | 0 <= i < |r| ensures r[i] == tables.keys[i] {
      TableListAt(tables, None, i);
    }
  }

  /** `get_procedure_list()`: the name of every routine, in insertion order. */
  function ProcedureList(routines: OrdMap<string, Routine>): (r: seq<string>)
    requires routines.Valid()
    ensures |r| == |routines.keys|
    ensures forall i :: 0 <= i < |r| ==> r[i] == routines.m[routines.keys[i]].name
  {
    var rs := routines.Values();
    seq(|rs|, i requires 0 <= i < |rs| => rs[i].name)
  }

  /** Routines stored by `add_routine` are listed by the names they are stored under. */
  lemma ProcedureListIsKeys(routines: OrdMap<string, Routine>)
    requires routines.Valid() && RoutinesKeyedByName(routines)
    ensures ProcedureList(routines) == routines.keys
  {
    var r := ProcedureList(routines);
    forall i | 0 <= i < |r| ensures r[i] == routines.keys[i] {
      assert routines.keys[i] in routines.m;
    }
  }

  /** The result of `find_constraint(name)`: the first constraint of that name in the first table that has one. */
  function FirstConstraint(ts: seq<Table>, name: string): Option<Constraint> {
    if ts == [] then None
    else
      var here := Partition.Lookup(ts[0].constraints, ConstraintName, name);
      if here.Some? then here else FirstConstraint(ts[1..], name)
  }

  /** The constraints of all tables in table order. */
  function AllConstraints(ts: seq<Table>): seq<Constraint> {
    if ts == [] then [] else ts[0].constraints + AllConstraints(ts[1..])
  }

  /**
   * Scanning table by table finds the same constraint as a single first-match
   * lookup over all constraints in table order.
   */
  lemma {:induction false} FirstConstraintIsLookup(ts: seq<Table>, name: string)
    ensures FirstConstraint(ts, name) == Partition.Lookup(AllConstraints(ts), ConstraintName, name)
  {
    if ts != [] {
      FirstConstraintIsLookup(ts[1..], name);
      Partition.LookupConcat(ts[0].constraints, AllConstraints(ts[1..]), ConstraintName, name);
    }
  }

  /** The scanning loop of `find_constraint`, over the tables in insertion order. */
  method FindConstraintIn(tables: OrdMap<string, Table>, name: string) returns (r: Option<Constraint>)
    requires tables.Valid()
    ensures r == FirstConstraint(tables.Values(), name)
    ensures r == Partition.Lookup(AllConstraints(tables.Values()), ConstraintName, name)
  {
    var ts := tables.Values();
    var i := 0;
    while i < |ts|
      invariant 0 <= i <= |ts|
      invariant FirstConstraint(ts, name) == FirstConstraint(ts[i..], name)
    {
      assert ts[i..][1..] == ts[i + 1..];
      var c := GetConstraint(ts[i], name);
      if c.Some? {
        FirstConstraintIsLookup(ts, name);
        return c;
      }
      i := i + 1;
    }
    FirstConstraintIsLookup(ts, name);
    r := None;
  }

  // ---------------------------------------------------------------- Database

  /** A database: its tables and routines, each keyed by its own name. */
  class Database {
    var name: string
    var tables: OrdMap<string, Table>
    var routines: OrdMap<string, Routine>

    ghost predicate Valid()
      reads this
    {
      ContainersValid(tables, routines)
    }

    constructor(name: string)
      ensures Valid()
      ensures this.name == name && tables == Empty() && routines == Empty()
    {
      this.name := name;
      tables := Empty();
      routines := Empty();
    }

    /** `reset(dbname)`: empty containers under a new name. */
    method Reset(dbname: string)
      modifies this
      ensures Valid()
      ensures name == dbname && tables == Empty() && routines == Empty()
    {
      name := dbname;
      tables := Empty();
      routines := Empty();
    }

    /** `get_table(tablename)` */
    function GetTable(tablename: string): (r: Option<Table>)
      reads this
      ensures r.Some? <==> tablename in tables.m
      ensures r.Some? ==> r.value == tables.m[tablename]
      ensures Valid() && r.Some? ==> r.value.name == tablename
    {
      tables.Get(tablename)
    }

    /** `add_table(table)`: stores the table under its name, replacing one of the same name. */
    method AddTable(t: Table)
      requires Valid()
      modifies this
      ensures Valid()
      ensures tables == old(tables).Put(t.name, t)
      ensures name == old(name) && routines == old(routines)
    {
      tables := tables.Put(t.name, t);
    }

    /** `add_routine(routine)`: stores the routine under its name, replacing one of the same name. */
    method AddRoutine(r: Routine)
      requires Valid()
      modifies this
      ensures Valid()
      ensures routines == old(routines).Put(r.name, r)
      ensures name == old(name) && tables == old(tables)
    {
      routines := routines.Put(r.name, r);
    }

    function GetTableList(canon: Option<Canonicalizer>): (r: seq<string>)
      requires Valid()
      reads this
      ensures r == TableList(tables, canon)
    {
      TableList(tables, canon)
    }

    method FindConstraint(cname: string) returns (r: Option<Constraint>)
      requires Valid()
      ensures r == FirstConstraint(tables.Values(), cname)
    {
      r := FindConstraintIn(tables, cname);
    }

    function GetProcedureList(): (r: seq<string>)
      requires Valid()
      reads this
      ensures r == routines.keys
    {
      ProcedureListIsKeys(routines);
      ProcedureList(routines)
    }

    /** `get_procedure(name)` */
    function GetProcedure(pname: string): (r: Option<Routine>)
      reads this
      ensures r.Some? <==> pname in routines.m
      ensures r.Some? ==> r.value == routines.m[pname]
    {
      routines.Get(pname)
    }
  }

  /** `add_table` followed by `get_table` of the same name finds the table just added. */
  lemma AddTableThenGet(tables: OrdMap<string, Table>, t: Table, n: string)
    requires tables.Valid() && KeyedByName(tables)
    ensures KeyedByName(tables.Put(t.name, t))
    ensures tables.Put(t.name, t).Get(t.name) == Some(t)
    ensures n != t.name ==> tables.Put(t.name, t).Get(n) == tables.Get(n)
    ensures |tables.Put(t.name, t).keys| == |tables.keys| + (if t.name in tables.m then 0 else 1)
  {
  }

  // ---------------------------------------------------------------- SchemaAwareDatabase

  /** One `SchemaAwareDatabase.Schema`: a `Database` named after its schema (`None` for tables without one). */
  datatype Namespace = Namespace(name: Option<string>, tables: OrdMap<string, Table>, routines: OrdMap<string, Routine>)

  function EmptyNamespace(name: Option<string>): (ns: Namespace)
    ensures NamespaceValid(ns) && ns.name == name && ns.tables.m == map[] && ns.routines.m == map[]
  {
    Namespace(name, Empty(), Empty())
  }

  /** Every table and routine of a namespace is keyed by name and belongs to the namespace's schema. */
  ghost predicate NamespaceValid(ns: Namespace) {
    && ContainersValid(ns.tables, ns.routines)
    && (forall n :: n in ns.tables.m ==> ns.tables.m[n].schema == ns.name)
    && (forall n :: n in ns.routines.m ==> ns.routines.m[n].schema == ns.name)
  }

  /** Every namespace is stored under its own schema name. */
  ghost predicate NamespacesValid(schemas: OrdMap<Option<string>, Namespace>) {
    && schemas.Valid()
    && forall s :: s in schemas.m ==> NamespaceValid(schemas.m[s]) && schemas.m[s].name == s
  }

  /** The namespaces that `reset(dbname, schemas)` creates, one per listed schema name. */
  function InitialNamespaces(names: seq<string>): (r: OrdMap<Option<string>, Namespace>)
    ensures NamespacesValid(r)
    ensures forall s :: s in r.m ==> s.Some? && s.value in names && r.m[s] == EmptyNamespace(s)
    ensures forall s :: s in names ==> Some(s) in r.m
  {
    if names == [] then Empty()
    else
      var last := names[|names| - 1];
      var init := InitialNamespaces(names[..|names| - 1]);
      assert names == names[..|names| - 1] + [last];
      PutNamespaceValid(init, Some(last), EmptyNamespace(Some(last)));
      init.Put(Some(last), EmptyNamespace(Some(last)))
  }

  lemma InitialNamespacesNext(names: seq<string>, i: nat)
    requires i < |names|
    ensures InitialNamespaces(names[..i]).Valid()
    ensures InitialNamespaces(names[..i + 1]) == InitialNamespaces(names[..i]).Put(Some(names[i]), EmptyNamespace(Some(names[i])))
  {
    assert names[..i + 1][..i] == names[..i];
  }

  /** The schema and table name that `get_table` looks up. */
  datatype QualifiedName = QualifiedName(schema: Option<string>, table: string)

  /**
   * Name resolution in `get_table(tablename, schema)`: an explicit schema is used
   * as given; otherwise a dotted name must split into exactly `schema.table`
   * (more dots make the two-way unpacking fail, with the message Python 3.11 and
   * earlier give); otherwise the default schema applies.
   */
  function ResolveTableName(tablename: string, schema: Option<string>, defaultSchema: Option<string>): (r: Result<QualifiedName>)
    ensures schema.Some? ==> r == Ok(QualifiedName(schema, tablename))
    ensures schema.None? && '.' !in tablename ==> r == Ok(QualifiedName(defaultSchema, tablename))
    ensures r.Ok? ==> r.value.schema.Some? || r.value.schema == defaultSchema
  {
    if schema.Some? then Ok(QualifiedName(schema, tablename))
    else if '.' in tablename then
      var parts := Text.Split(tablename, '.');
      if |parts| == 2 then Ok(QualifiedName(Some(parts[0]), parts[1]))
      else Err(ValueError("too many values to unpack (expected 2)"))
    else Ok(QualifiedName(defaultSchema, tablename))
  }

  /** A name `s.n` whose parts hold no dot resolves to schema `s`, table `n`. */
  lemma ResolveDottedName(s: string, n: string, defaultSchema: Option<string>)
    requires '.' !in s && '.' !in n
    ensures ResolveTableName(s + "." + n, None, defaultSchema) == Ok(QualifiedName(Some(s), n))
  {
    Text.SplitParts(s, n, '.');
    assert (s + "." + n)[|s|] == '.';
  }

  /** A name with two or more dots and no explicit schema raises `ValueError`. */
  lemma ResolveTooManyDots(a: string, b: string, c: string, defaultSchema: Option<string>)
    requires '.' !in a && '.' !in b
    ensures ResolveTableName(a + "." + b + "." + c, None, defaultSchema).Err?
    ensures ResolveTableName(a + "." + b + "." + c, None, defaultSchema).error.ValueError?
  {
    var t := a + "." + b + "." + c;
    assert t[|a|] == '.';
    var rest := b + "." + c;
    assert t == a + ['.'] + rest;
    assert rest[|b|] == '.';
    assert |Text.Split(t, '.')| > 2 by {
      Text.SplitJoin(rest, '.');
      SplitAfterSeparatorFree(a, rest);
      Text.SplitJoin(c, '.');
      SplitAfterSeparatorFree(b, c);
    }
  }

  /** Splitting `a.rest` with a separator-free `a` gives `a` followed by the parts of `rest`. */
  lemma SplitAfterSeparatorFree(a: string, rest: string)
    requires '.' !in a
    ensures Text.Split(a + "." + rest, '.') == [a] + Text.Split(rest, '.')
  {
    var t := a + "." + rest;
    assert t[..|a|] == a && t[|a| + 1..] == rest && t[|a|] == '.';
    assert forall k :: 0 <= k < |a| ==> t[k] == a[k];
    assert Text.IndexOf(t, '.') == |a|;
  }

  /** `f"{schema}"` for the schema in an error message. */
  function ShowSchema(s: Option<string>): string {
    if s.Some? then s.value else "None"
  }

  /** `get_table(tablename, schema)`: `ValueError` for an unknown schema, otherwise the table or `None`. */
  function LookupTable(schemas: OrdMap<Option<string>, Namespace>, defaultSchema: Option<string>,
                       tablename: string, schema: Option<string>): (r: Result<Option<Table>>)
    ensures r.Err? ==> r.error.ValueError?
    ensures ResolveTableName(tablename, schema, defaultSchema).Ok? ==>
      var q := ResolveTableName(tablename, schema, defaultSchema).value;
      (r.Err? <==> q.schema !in schemas.m)
      && (r.Err? ==> r.error == ValueError("Invalid schema: " + ShowSchema(q.schema)))
      && (r.Ok? ==> r.value == schemas.m[q.schema].tables.Get(q.table))
  {
    match ResolveTableName(tablename, schema, defaultSchema)
    case Err(e) => Err(e)
    case Ok(q) =>
      match schemas.Get(q.schema)
      case None => Err(ValueError("Invalid schema: " + ShowSchema(q.schema)))
      case Some(ns) => Ok(ns.tables.Get(q.table))
  }

  /** The namespace `add_table` and `add_routine` put into: the existing one, or a new empty one. */
  function NamespaceFor(schemas: OrdMap<Option<string>, Namespace>, s: Option<string>): Namespace {
    if s in schemas.m then schemas.m[s] else EmptyNamespace(s)
  }

  lemma PutNamespaceValid(schemas: OrdMap<Option<string>, Namespace>, s: Option<string>, ns: Namespace)
    requires NamespacesValid(schemas) && NamespaceValid(ns) && ns.name == s
    ensures NamespacesValid(schemas.Put(s, ns))
  {
  }

  lemma NamespaceForValid(schemas: OrdMap<Option<string>, Namespace>, s: Option<string>)
    requires NamespacesValid(schemas)
    ensures NamespaceValid(NamespaceFor(schemas, s)) && NamespaceFor(schemas, s).name == s
  {
  }

  /** `add_table(table)`: the table goes into its schema's namespace, which is created when missing. */
  function AddTableTo(schemas: OrdMap<Option<string>, Namespace>, t: Table): (r: OrdMap<Option<string>, Namespace>)
    requires NamespacesValid(schemas)
    ensures NamespacesValid(r)
    ensures t.schema in r.m && r.m[t.schema].tables.Get(t.name) == Some(t)
  {
    var ns := NamespaceFor(schemas, t.schema);
    NamespaceForValid(schemas, t.schema);
    var added := ns.(tables := ns.tables.Put(t.name, t));
    PutNamespaceValid(schemas, t.schema, added);
    schemas.Put(t.schema, added)
  }

  /**
   * `add_table` creates the table's schema at the end of the schema order when it
   * is missing, and leaves every other schema as it was.
   */
  lemma AddTableToFrame(schemas: OrdMap<Option<string>, Namespace>, t: Table)
    requires NamespacesValid(schemas)
    ensures t.schema in schemas.m ==> AddTableTo(schemas, t).keys == schemas.keys
    ensures t.schema !in schemas.m ==> AddTableTo(schemas, t).keys == schemas.keys + [t.schema]
    ensures forall s :: s in schemas.m && s != t.schema ==> AddTableTo(schemas, t).m[s] == schemas.m[s]
  {
    var ns := NamespaceFor(schemas, t.schema);
    var added := ns.(tables := ns.tables.Put(t.name, t));
    assert AddTableTo(schemas, t).m == schemas.m[t.schema := added];
  }

  /** Within its schema, `add_table` changes only the entry of the table's own name. */
  lemma AddTableToSchemaFrame(schemas: OrdMap<Option<string>, Namespace>, t: Table, n: string)
    requires NamespacesValid(schemas) && n != t.name
    ensures AddTableTo(schemas, t).m[t.schema].tables.Get(n) == NamespaceFor(schemas, t.schema).tables.Get(n)
    ensures AddTableTo(schemas, t).m[t.schema].routines == NamespaceFor(schemas, t.schema).routines
  {
    var ns := NamespaceFor(schemas, t.schema);
    var added := ns.(tables := ns.tables.Put(t.name, t));
    assert AddTableTo(schemas, t).m == schemas.m[t.schema := added];
  }

  /** `add_routine(routine)`: the routine goes into its schema's namespace, which is created when missing. */
  function AddRoutineTo(schemas: OrdMap<Option<string>, Namespace>, p: Routine): (r: OrdMap<Option<string>, Namespace>)
    requires NamespacesValid(schemas)
    ensures NamespacesValid(r)
    ensures p.schema in r.m && r.m[p.schema].routines.Get(p.name) == Some(p)
  {
    var ns := NamespaceFor(schemas, p.schema);
    NamespaceForValid(schemas, p.schema);
    var added := ns.(routines := ns.routines.Put(p.name, p));
    PutNamespaceValid(schemas, p.schema, added);
    schemas.Put(p.schema, added)
  }

  /**
   * `add_routine` creates the routine's schema at the end of the schema order when
   * it is missing, and changes nothing but that one routine entry.
   */
  lemma AddRoutineToFrame(schemas: OrdMap<Option<string>, Namespace>, p: Routine)
    requires NamespacesValid(schemas)
    ensures p.schema in schemas.m ==> AddRoutineTo(schemas, p).keys == schemas.keys
    ensures p.schema !in schemas.m ==> AddRoutineTo(schemas, p).keys == schemas.keys + [p.schema]
    ensures forall s :: s in schemas.m && s != p.schema ==> AddRoutineTo(schemas, p).m[s] == schemas.m[s]
    ensures AddRoutineTo(schemas, p).m[p.schema].tables == NamespaceFor(schemas, p.schema).tables
  {
    var ns := NamespaceFor(schemas, p.schema);
    var added := ns.(routines := ns.routines.Put(p.name, p));
    assert AddRoutineTo(schemas, p).m == schemas.m[p.schema := added];
  }

  /** A table added with a schema is found by `get_table(name, schema)`. */
  lemma AddThenGetTable(schemas: OrdMap<Option<string>, Namespace>, defaultSchema: Option<string>, t: Table)
    requires NamespacesValid(schemas) && t.schema.Some?
    ensures LookupTable(AddTableTo(schemas, t), defaultSchema, t.name, t.schema) == Ok(Some(t))
  {
  }

  /** A table added with a schema is found by its full name `schema.name` when neither part holds a dot. */
  lemma AddThenGetByFullName(schemas: OrdMap<Option<string>, Namespace>, defaultSchema: Option<string>, t: Table)
    requires NamespacesValid(schemas) && t.schema.Some?
    requires '.' !in t.schema.value && '.' !in t.name
    ensures LookupTable(AddTableTo(schemas, t), defaultSchema, FullName(t), None) == Ok(Some(t))
  {
    ResolveDottedName(t.schema.value, t.name, defaultSchema);
  }

  /** A table of the default schema is found by its bare name. */
  lemma AddThenGetByDefault(schemas: OrdMap<Option<string>, Namespace>, defaultSchema: Option<string>, t: Table)
    requires NamespacesValid(schemas) && t.schema == defaultSchema && '.' !in t.name
    ensures LookupTable(AddTableTo(schemas, t), defaultSchema, t.name, None) == Ok(Some(t))
  {
  }

  /** Looking up a table in a schema that was never created raises `ValueError`. */
  lemma UnknownSchemaRaises(schemas: OrdMap<Option<string>, Namespace>, defaultSchema: Option<string>, n: string, s: string)
    requires Some(s) !in schemas.m
    ensures LookupTable(schemas, defaultSchema, n, Some(s)) == Err(ValueError("Invalid schema: " + s))
  {
  }

  /** The concatenation of `ss`, as repeated `list.extend` builds it. */
  function Flatten<T>(ss: seq<seq<T>>): seq<T> {
    if ss == [] then [] else Flatten(ss[..|ss| - 1]) + ss[|ss| - 1]
  }

  /** An item is in the concatenation exactly when it is in one of the parts. */
  lemma {:induction false} FlattenMember<T>(ss: seq<seq<T>>, x: T)
    ensures x in Flatten(ss) <==> exists j :: 0 <= j < |ss| && x in ss[j]
  {
    if ss != [] {
      var init := ss[..|ss| - 1];
      FlattenMember(init, x);
      if x in Flatten(init) {
        var j :| 0 <= j < |init| && x in init[j];
        assert ss[j] == init[j];
      }
      if exists j :: 0 <= j < |ss| && x in ss[j] {
        var j :| 0 <= j < |ss| && x in ss[j];
        if j < |init| { assert init[j] == ss[j]; }
      }
    }
  }

  /** Extending by one more part. */
  lemma FlattenNext<T>(ss: seq<seq<T>>, i: nat)
    requires i < |ss|
    ensures Flatten(ss[..i + 1]) == Flatten(ss[..i]) + ss[i]
  {
    assert ss[..i + 1][..i] == ss[..i];
  }

  /** Each namespace's `get_table_list(canonicalize)`, in schema order. */
  function TableLists(schemas: OrdMap<Option<string>, Namespace>, canon: Option<Canonicalizer>): (r: seq<seq<string>>)
    requires NamespacesValid(schemas)
    ensures |r| == |schemas.keys|
  {
    var nss := schemas.Values();
    seq(|nss|, j requires 0 <= j < |nss| => assert schemas.keys[j] in schemas.m; TableList(nss[j].tables, canon))
  }

  lemma TableListsAt(schemas: OrdMap<Option<string>, Namespace>, canon: Option<Canonicalizer>, j: nat)
    requires NamespacesValid(schemas) && j < |schemas.keys|
    ensures schemas.keys[j] in schemas.m && schemas.m[schemas.keys[j]].tables.Valid()
    ensures TableLists(schemas, canon)[j] == TableList(schemas.m[schemas.keys[j]].tables, canon)
  {
  }

  /** Each namespace's `get_procedure_list()`, in schema order. */
  function ProcedureLists(schemas: OrdMap<Option<string>, Namespace>): (r: seq<seq<string>>)
    requires NamespacesValid(schemas)
    ensures |r| == |schemas.keys|
  {
    var nss := schemas.Values();
    seq(|nss|, j requires 0 <= j < |nss| => assert schemas.keys[j] in schemas.m; ProcedureList(nss[j].routines))
  }

  lemma ProcedureListsAt(schemas: OrdMap<Option<string>, Namespace>, j: nat)
    requires NamespacesValid(schemas) && j < |schemas.keys|
    ensures schemas.keys[j] in schemas.m
    ensures ProcedureLists(schemas)[j] == schemas.m[schemas.keys[j]].routines.keys
  {
    ProcedureListIsKeys(schemas.m[schemas.keys[j]].routines);
  }

  /** After `add_table`, the schema-wide `get_table_list()` lists the table's full name. */
  lemma AddedTableListed(schemas: OrdMap<Option<string>, Namespace>, t: Table, canon: Option<Canonicalizer>)
    requires NamespacesValid(schemas)
    ensures Canon(canon, FullName(t)) in Flatten(TableLists(AddTableTo(schemas, t), canon))
  {
    var r := AddTableTo(schemas, t);
    var j :| 0 <= j < |r.keys| && r.keys[j] == t.schema;
    TableListsAt(r, canon, j);
    TableListHasStored(r.m[t.schema].tables, canon, t.name);
    FlattenMember(TableLists(r, canon), Canon(canon, FullName(t)));
  }

  /** Every name the schema-wide `get_table_list()` gives is the full name of a table stored in some schema. */
  lemma SchemaTableListOnlyStored(schemas: OrdMap<Option<string>, Namespace>, canon: Option<Canonicalizer>, x: string)
    requires NamespacesValid(schemas) && x in Flatten(TableLists(schemas, canon))
    ensures exists s, n :: s in schemas.m && n in schemas.m[s].tables.m && x == Canon(canon, FullName(schemas.m[s].tables.m[n]))
  {
    FlattenMember(TableLists(schemas, canon), x);
    var j :| 0 <= j < |TableLists(schemas, canon)| && x in TableLists(schemas, canon)[j];
    TableListsAt(schemas, canon, j);
    var s := schemas.keys[j];
    TableListOnlyStored(schemas.m[s].tables, canon, x);
  }

  /** After `add_routine`, the schema-wide `get_procedure_list()` lists the routine's name. */
  lemma AddedRoutineListed(schemas: OrdMap<Option<string>, Namespace>, p: Routine)
    requires NamespacesValid(schemas)
    ensures p.name in Flatten(ProcedureLists(AddRoutineTo(schemas, p)))
  {
    var r := AddRoutineTo(schemas, p);
    var j :| 0 <= j < |r.keys| && r.keys[j] == p.schema;
    ProcedureListsAt(r, j);
    FlattenMember(ProcedureLists(r), p.name);
  }

  /** `get_procedure(name, schema)`: the schema defaults to the database's default schema. */
  function LookupProcedure(schemas: OrdMap<Option<string>, Namespace>, defaultSchema: Option<string>,
                           pname: string, schema: Option<string>): (r: Result<Option<Routine>>)
    ensures var s := if schema.Some? then schema else defaultSchema;
      && (r.Err? <==> s !in schemas.m)
      && (r.Err? ==> r.error == ValueError("Invalid schema: " + ShowSchema(s)))
      && (r.Ok? ==> r.value == schemas.m[s].routines.Get(pname))
  {
    var s := if schema.Some? then schema else defaultSchema;
    match schemas.Get(s)
    case None => Err(ValueError("Invalid schema: " + ShowSchema(s)))
    case Some(ns) => Ok(ns.routines.Get(pname))
  }

  /** A routine added with `add_routine` is found by `get_procedure` in its own schema. */
  lemma AddThenGetProcedure(schemas: OrdMap<Option<string>, Namespace>, defaultSchema: Option<string>, p: Routine)
    requires NamespacesValid(schemas)
    requires p.schema.Some? || defaultSchema.None?
    ensures LookupProcedure(AddRoutineTo(schemas, p), defaultSchema, p.name, p.schema) == Ok(Some(p))
  {
  }

  /** A database split into schemas, each a `Namespace`. */
  class SchemaAwareDatabase {
    var name: string
    var defaultSchema: Option<string>
    var schemas: OrdMap<Option<string>, Namespace>

    ghost predicate Valid()
      reads this
    {
      NamespacesValid(schemas)
    }

    /** `SchemaAwareDatabase(name, schemas, default_schema)` */
    constructor(name: string, schemaNames: Option<seq<string>>, defaultSchema: Option<string>)
      ensures Valid()
      ensures this.name == name && this.defaultSchema == defaultSchema
      ensures schemas == if schemaNames.Some? then InitialNamespaces(schemaNames.value) else Empty()
    {
      this.name := name;
      this.defaultSchema := defaultSchema;
      var acc := Empty();
      if schemaNames.Some? {
        var names := schemaNames.value;
        var i := 0;
        while i < |names|
          invariant 0 <= i <= |names|
          invariant acc == InitialNamespaces(names[..i])
        {
          InitialNamespacesNext(names, i);
          acc := acc.Put(Some(names[i]), EmptyNamespace(Some(names[i])));
          i := i + 1;
        }
        assert names[..|names|] == names;
      }
      schemas := acc;
    }

    function GetTable(tablename: string, schema: Option<string>): (r: Result<Option<Table>>)
      reads this
      ensures r == LookupTable(schemas, defaultSchema, tablename, schema)
    {
      LookupTable(schemas, defaultSchema, tablename, schema)
    }

    method AddTable(t: Table)
      requires Valid()
      modifies this
      ensures Valid()
      ensures schemas == AddTableTo(old(schemas), t)
      ensures name == old(name) && defaultSchema == old(defaultSchema)
    {
      schemas := AddTableTo(schemas, t);
    }

    method AddRoutine(p: Routine)
      requires Valid()
      modifies this
      ensures Valid()
      ensures schemas == AddRoutineTo(old(schemas), p)
      ensures name == old(name) && defaultSchema == old(defaultSchema)
    {
      schemas := AddRoutineTo(schemas, p);
    }

    /** `get_table_list(canonicalize)`: the lists of all schemas, extended one after another. */
    method GetTableList(canon: Option<Canonicalizer>) returns (r: seq<string>)
      requires Valid()
      ensures r == Flatten(TableLists(schemas, canon))
    {
      var nss := schemas.Values();
      ghost var lists := TableLists(schemas, canon);
      r := [];
      var i := 0;
      while i < |nss|
        invariant 0 <= i <= |nss|
        invariant r == Flatten(lists[..i])
      {
        TableListsAt(schemas, canon, i);
        FlattenNext(lists, i);
        r := r + TableList(nss[i].tables, canon);
        i := i + 1;
      }
      assert lists[..i] == lists;
    }

    /** `get_procedure_list()`: the lists of all schemas, extended one after another. */
    method GetProcedureList() returns (r: seq<string>)
      requires Valid()
      ensures r == Flatten(ProcedureLists(schemas))
    {
      var nss := schemas.Values();
      ghost var lists := ProcedureLists(schemas);
      r := [];
      var i := 0;
      while i < |nss|
        invariant 0 <= i <= |nss|
        invariant r == Flatten(lists[..i])
      {
        ProcedureListsAt(schemas, i);
        FlattenNext(lists, i);
        r := r + ProcedureList(nss[i].routines);
        i := i + 1;
      }
      assert lists[..i] == lists;
    }

    /** `find_constraint(name, schema)`: `ValueError` for an unknown schema, otherwise that schema's first match. */
    method FindConstraint(cname: string, schema: Option<string>) returns (r: Result<Option<Constraint>>)
      requires Valid()
      ensures r.Err? <==> schema !in schemas.m
      ensures r.Err? ==> r.error == ValueError("Invalid schema: " + ShowSchema(schema))
      ensures r.Ok? ==> r.value == FirstConstraint(schemas.m[schema].tables.Values(), cname)
    {
      var ns := schemas.Get(schema);
      if ns.None? {
        return Err(ValueError("Invalid schema: " + ShowSchema(schema)));
      }
      var c := FindConstraintIn(ns.value.tables, cname);
      r := Ok(c);
    }

    function GetProcedure(pname: string, schema: Option<string>): (r: Result<Option<Routine>>)
      reads this
      ensures r == LookupProcedure(schemas, defaultSchema, pname, schema)
    {
      LookupProcedure(schemas, defaultSchema, pname, schema)
    }
  }
}
