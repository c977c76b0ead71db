/**
 The translation of a piccolo table into the field definitions of a pydantic
 model (`create_pydantic_model`), and the `lru_cache` that memoizes it.

 A table is given by its ordered column list and its non-default column list;
 each column becomes one field, and each column whose class is exactly
 `ForeignKey` may also get a companion `<name>_readable` field. The fields are
 collected in an insertion-ordered dictionary, and the model is an opaque
 value built from the table's class name and that dictionary.
 */
module Serializers {
  import opened PyDict

  datatype Option<T> = None | Some(value: T)

  /** A Python type as it appears in a field definition: a named type, or `t.Optional[...]` of one. */
  datatype PyType = Named(name: string) | Optional(inner: PyType)

  /** The built-in `str`, the type of every `_readable` field. */
  const STR: PyType := Named("str")

  /**
   The class of a column object: exactly `ForeignKey`, a subclass of
   `ForeignKey`, or any other column class.
   */
  datatype ColumnClass =
    | ForeignKeyClass
    | ForeignKeySubclass(className: string)
    | OtherColumnClass(className: string)

  /**
   The attributes of a column that the translation reads: its name, its class,
   whether it has a `default` attribute, whether it allows null, the tablename
   of the table it references (read only for foreign keys) and its value type.
   */
  datatype Column = Column(
    name: string,
    cls: ColumnClass,
    hasDefault: bool,
    nullable: bool,
    references: string,
    valueType: PyType)

  /** A table class: its class name, all its columns, and its non-default columns. */
  datatype Table = Table(name: string, columns: seq<Column>, nonDefaultColumns: seq<Column>)

  /** The `default` of a `pydantic.Field`; the translator only ever passes `None`. */
  datatype DefaultValue = PyNone

  /** `pydantic.Field(default=..., foreign_key=..., to=...)`. */
  datatype FieldSpec = FieldSpec(default: DefaultValue, foreignKey: bool, to: string)

  /** A field definition `(type, spec)`, where a spec of `None` is the plain value `None`. */
  datatype Field = Field(ty: PyType, spec: Option<FieldSpec>)

  /** The pydantic model class, built from the table's class name and the fields in order. */
  datatype Model = Model(name: string, fields: Dict<Field>)

  /** `isinstance(column, ForeignKey)`. */
  predicate IsInstanceOfForeignKey(c: Column)
  {
    c.cls.ForeignKeyClass? || c.cls.ForeignKeySubclass?
  }

  /**
   `type(column) == ForeignKey`: the test that selects the foreign-key branch.
   It is stricter than `isinstance`: a subclass of `ForeignKey` fails it.
   */
  predicate TakesForeignKeyBranch(c: Column): (b: bool)
    ensures b ==> IsInstanceOfForeignKey(c)
    ensures c.cls.ForeignKeySubclass? ==> !b
  {
    c.cls == ForeignKeyClass
  }

  /** The columns that are translated: all of them, or only the non-default ones. */
  function SelectColumns(t: Table, includeDefaultColumns: bool): (cols: seq<Column>)
  {
    if includeDefaultColumns then t.columns else t.nonDefaultColumns
  }

  /**
   The field a column becomes. Its type is the value type, made optional when
   the column has a default, or, for a foreign key only, when it allows null.
   A foreign key's field carries a spec with default `None`, `foreign_key`
   set and `to` naming the referenced table; any other field carries none.
   */
  function ColumnField(c: Column): (f: Field)
    ensures f.ty == c.valueType || f.ty == Optional(c.valueType)
    ensures f.ty == Optional(c.valueType) <==> c.hasDefault || (TakesForeignKeyBranch(c) && c.nullable)
    ensures f.spec.Some? <==> TakesForeignKeyBranch(c)
    ensures f.spec.Some? ==> f.spec.value == FieldSpec(PyNone, true, c.references)
  {
    if TakesForeignKeyBranch(c) then
      var isOptional := c.hasDefault || c.nullable;
      Field(if isOptional then Optional(c.valueType) else c.valueType,
            Some(FieldSpec(PyNone, true, c.references)))
    else
      Field(if c.hasDefault then Optional(c.valueType) else c.valueType, None)
  }

  /** The name of the companion field of a foreign key. */
  function ReadableName(name: string): (r: string)
    ensures |r| == |name| + 9 && r[..|name|] == name && r[|name|..] == "_readable"
    ensures r != name
  {
    name + "_readable"
  }

  /** The companion field: `(str, None)`. */
  const READABLE_FIELD: Field := Field(STR, None)

  /** The assignments one column makes: its own field, then its companion when there is one. */
  function ColumnPairs(c: Column, includeReadable: bool): (ps: seq<(string, Field)>)
    ensures 1 <= |ps| <= 2 && (|ps| == 2 <==> includeReadable && TakesForeignKeyBranch(c))
    ensures ps[0] == (c.name, ColumnField(c))
    ensures forall p :: p in ps[1..] ==> p == (ReadableName(c.name), READABLE_FIELD)
  {
    [(c.name, ColumnField(c))]
      + if includeReadable && TakesForeignKeyBranch(c) then [(ReadableName(c.name), READABLE_FIELD)] else []
  }

  /** How many columns take the foreign-key branch. */
  function CountForeignKeys(cols: seq<Column>): (n: nat)
    ensures n <= |cols|
  {
    if cols == [] then 0
    else (if TakesForeignKeyBranch(cols[0]) then 1 else 0) + CountForeignKeys(cols[1..])
  }

  /**
   All assignments of the translation, in the order they are made: one per
   column, plus one per foreign-key column when the companions are wanted.
   */
  function Emitted(cols: seq<Column>, includeReadable: bool): (ps: seq<(string, Field)>)
    ensures |ps| == |cols| + (if includeReadable then CountForeignKeys(cols) else 0)
  {
    if cols == [] then [] else ColumnPairs(cols[0], includeReadable) + Emitted(cols[1..], includeReadable)
  }

  /** The dictionary the assignments build, starting from `{}`. */
  function Fields(cols: seq<Column>, includeReadable: bool): (d: Dict<Field>)
    ensures d.Valid()
  {
    PutAll(Empty(), Emitted(cols, includeReadable))
  }

  /**
   The model a call with these arguments builds: named after the table, with
   at most one field per column plus one per foreign-key companion (fewer only
   when a name is assigned twice).
   */
  function Translation(t: Table, includeDefaultColumns: bool := false, includeReadable: bool := false): (m: Model)
    ensures m.name == t.name && m.fields.Valid()
    ensures var cols := SelectColumns(t, includeDefaultColumns);
      |m.fields.keys| <= |cols| + if includeReadable then CountForeignKeys(cols) else 0
  {
    PutAllKeys(Empty(), Emitted(SelectColumns(t, includeDefaultColumns), includeReadable));
    Model(t.name, Fields(SelectColumns(t, includeDefaultColumns), includeReadable))
  }

  /**
   `create_pydantic_model` without its cache: fills the field dictionary
   column by column and builds the model from it.
   */
  method CreatePydanticModel(table: Table, includeDefaultColumns: bool := false, includeReadable: bool := false)
    returns (model: Model)
    ensures model.name == table.name && model.fields.Valid()
    ensures model == Translation(table, includeDefaultColumns, includeReadable)
  {
    var columns: Dict<Field> := Empty();
    var piccoloColumns := if includeDefaultColumns then table.columns else table.nonDefaultColumns;
    for i := 0 to |piccoloColumns|
      invariant columns.Valid()
      invariant columns == Fields(piccoloColumns[..i], includeReadable)
    {
      ghost var before := columns;
      var column := piccoloColumns[i];
      var columnName := column.name;
      if column.cls == ForeignKeyClass {
        var isOptional := column.hasDefault || column.nullable;
        var ty := if isOptional then Optional(column.valueType) else column.valueType;
        var field := FieldSpec(PyNone, true, column.references);
        columns := columns.Put(columnName, Field(ty, Some(field)));
        PutAllOne(before, columnName, Field(ty, Some(field)));
        assert Field(ty, Some(field)) == ColumnField(column);
        if includeReadable {
          ghost var middle := columns;
          columns := columns.Put(columnName + "_readable", Field(STR, None));
          PutAllOne(middle, columnName + "_readable", Field(STR, None));
          PutAllAppend(before, [(columnName, Field(ty, Some(field)))], [(columnName + "_readable", Field(STR, None))]);
          assert ColumnPairs(column, includeReadable)
                 == [(columnName, Field(ty, Some(field)))] + [(columnName + "_readable", Field(STR, None))];
        } else {
          assert ColumnPairs(column, includeReadable) == [(columnName, Field(ty, Some(field)))];
        }
      } else {
        var ty := if column.hasDefault then Optional(column.valueType) else column.valueType;
        columns := columns.Put(columnName, Field(ty, None));
        PutAllOne(before, columnName, Field(ty, None));
        assert ColumnPairs(column, includeReadable) == [(columnName, Field(ty, None))];
      }
      FieldsNextColumn(piccoloColumns, i, includeReadable);
    }
    assert piccoloColumns[..|piccoloColumns|] == piccoloColumns;
    model := Model(table.name, columns);
  }

  /** The assignments for two column lists one after the other. */
  lemma {:induction false} EmittedAppend(a: seq<Column>, b: seq<Column>, includeReadable: bool)
    ensures Emitted(a + b, includeReadable) == Emitted(a, includeReadable) + Emitted(b, includeReadable)
    decreases |a|
  {
    if a == [] {
      assert a + b == b;
    } else {
      assert (a + b)[0] == a[0];
      assert (a + b)[1..] == a[1..] + b;
      EmittedAppend(a[1..], b, includeReadable);
      AppendAssoc(ColumnPairs(a[0], includeReadable), Emitted(a[1..], includeReadable), Emitted(b, includeReadable));
    }
  }

  /** Translating one more column makes that column's assignments on top of the dictionary so far. */
  lemma FieldsSnoc(cols: seq<Column>, c: Column, includeReadable: bool)
    ensures Fields(cols + [c], includeReadable) == PutAll(Fields(cols, includeReadable), ColumnPairs(c, includeReadable))
  {
    assert Emitted([c], includeReadable) == ColumnPairs(c, includeReadable);
    EmittedAppend(cols, [c], includeReadable);
    PutAllAppend(Empty(), Emitted(cols, includeReadable), ColumnPairs(c, includeReadable));
  }

  /** The dictionary after column `i` is the one before it with that column's assignments made. */
  lemma FieldsNextColumn(cols: seq<Column>, i: nat, includeReadable: bool)
    requires i < |cols|
    ensures Fields(cols[..i + 1], includeReadable) == PutAll(Fields(cols[..i], includeReadable), ColumnPairs(cols[i], includeReadable))
  {
    PrefixSnoc(cols, i);
    FieldsSnoc(cols[..i], cols[i], includeReadable);
  }

  /** Column `c` gives rise to the field name `k`. */
  predicate Produces(c: Column, includeReadable: bool, k: string)
  {
    k == c.name || (includeReadable && TakesForeignKeyBranch(c) && k == ReadableName(c.name))
  }

  /** A name is assigned exactly when some column gives rise to it. */
  lemma {:induction false} EmittedNames(cols: seq<Column>, includeReadable: bool, k: string)
    ensures k in Names(Emitted(cols, includeReadable)) <==> exists c :: c in cols && Produces(c, includeReadable, k)
    decreases |cols|
  {
    if cols != [] {
      var head := ColumnPairs(cols[0], includeReadable);
      var tail := Emitted(cols[1..], includeReadable);
      NamesAppend(head, tail);
      EmittedNames(cols[1..], includeReadable, k);
      assert k in Names(head) <==> Produces(cols[0], includeReadable, k);
      assert forall c :: c in cols <==> c == cols[0] || c in cols[1..];
    }
  }

  /**
   The model has a field named `k` exactly when some selected column gives rise
   to `k`: the column's own name, or, when the companions are wanted and the
   column takes the foreign-key branch, its `_readable` name.
   */
  lemma FieldNames(t: Table, includeDefaultColumns: bool, includeReadable: bool, k: string)
    ensures k in Translation(t, includeDefaultColumns, includeReadable).fields.entries
            <==> exists c :: c in SelectColumns(t, includeDefaultColumns) && Produces(c, includeReadable, k)
  {
    var cols := SelectColumns(t, includeDefaultColumns);
    PutAllKeys(Empty(), Emitted(cols, includeReadable));
    EmittedNames(cols, includeReadable, k);
  }

  /**
   Including the default columns only adds fields: when the non-default columns
   are among the columns, every field of the model without the default columns
   is a field of the model with them.
   */
  lemma DefaultColumnsOnlyAdd(t: Table, includeReadable: bool)
    requires forall c :: c in t.nonDefaultColumns ==> c in t.columns
    ensures Translation(t, false, includeReadable).fields.entries.Keys
            <= Translation(t, true, includeReadable).fields.entries.Keys
  {
    forall k | k in Translation(t, false, includeReadable).fields.entries
      ensures k in Translation(t, true, includeReadable).fields.entries
    {
      FieldNames(t, false, includeReadable, k);
      FieldNames(t, true, includeReadable, k);
    }
  }

  /** No two assignments of the translation are to the same name. */
  ghost predicate DistinctFieldNames(cols: seq<Column>, includeReadable: bool)
  {
    NoDuplicates(Names(Emitted(cols, includeReadable)))
  }

  /**
   With distinct names, the fields come out in the order they are assigned,
   and there is one per column plus one per foreign-key column when the
   companions are wanted.
   */
  lemma FieldOrderAndCount(cols: seq<Column>, includeReadable: bool)
    requires DistinctFieldNames(cols, includeReadable)
    ensures Fields(cols, includeReadable).keys == Names(Emitted(cols, includeReadable))
    ensures |Fields(cols, includeReadable).keys| == |cols| + (if includeReadable then CountForeignKeys(cols) else 0)
  {
    PutAllFreshKeys(Empty(), Emitted(cols, includeReadable));
  }

  /** Where column `i`'s field is assigned: after the columns before it and their companions. */
  function Position(cols: seq<Column>, includeReadable: bool, i: nat): (p: nat)
    requires i <= |cols|
    ensures i <= p <= 2 * i
    ensures !includeReadable ==> p == i
  {
    i + if includeReadable then CountForeignKeys(cols[..i]) else 0
  }

  /**
   Column `i`'s field is assigned at its position, and its companion, if any,
   right after it; the next column's fields come later.
   */
  lemma EmittedAt(cols: seq<Column>, includeReadable: bool, i: nat)
    requires i < |cols|
    ensures Position(cols, includeReadable, i) + |ColumnPairs(cols[i], includeReadable)|
            == Position(cols, includeReadable, i + 1)
    ensures Position(cols, includeReadable, i + 1) <= |Emitted(cols, includeReadable)|
    ensures Emitted(cols, includeReadable)[Position(cols, includeReadable, i)] == (cols[i].name, ColumnField(cols[i]))
    ensures includeReadable && TakesForeignKeyBranch(cols[i]) ==>
              Emitted(cols, includeReadable)[Position(cols, includeReadable, i) + 1]
              == (ReadableName(cols[i].name), READABLE_FIELD)
  {
    var before, rest := cols[..i], cols[i + 1..];
    assert cols[..i + 1] == before + [cols[i]];
    assert cols == cols[..i + 1] + rest;
    assert Emitted([cols[i]], includeReadable) == ColumnPairs(cols[i], includeReadable);
    EmittedAppend(before, [cols[i]], includeReadable);
    EmittedAppend(cols[..i + 1], rest, includeReadable);
  }

  /** A foreign key's own assignment and, right after it, its companion's, when the companions are wanted. */
  lemma EmittedCompanionAt(cols: seq<Column>, i: nat)
    requires i < |cols| && TakesForeignKeyBranch(cols[i])
    ensures Position(cols, true, i) + 1 < |Emitted(cols, true)|
    ensures Emitted(cols, true)[Position(cols, true, i)] == (cols[i].name, ColumnField(cols[i]))
    ensures Emitted(cols, true)[Position(cols, true, i) + 1] == (ReadableName(cols[i].name), READABLE_FIELD)
  {
    EmittedAt(cols, true, i);
  }

  /** Column positions grow with the column index: the fields keep the column order. */
  lemma {:induction false} PositionsIncrease(cols: seq<Column>, includeReadable: bool, i: nat, j: nat)
    requires i < j <= |cols|
    ensures Position(cols, includeReadable, i) + |ColumnPairs(cols[i], includeReadable)|
            <= Position(cols, includeReadable, j)
    decreases j - i
  {
    EmittedAt(cols, includeReadable, i);
    if i + 1 < j {
      PositionsIncrease(cols, includeReadable, i + 1, j);
    }
  }

  /**
   With distinct names, column `i`'s field is the field computed for it and
   stands at its position in the key order.
   */
  lemma ColumnFieldInOutput(cols: seq<Column>, includeReadable: bool, i: nat)
    requires DistinctFieldNames(cols, includeReadable)
    requires i < |cols|
    ensures Position(cols, includeReadable, i) < |Fields(cols, includeReadable).keys|
    ensures Fields(cols, includeReadable).keys[Position(cols, includeReadable, i)] == cols[i].name
    ensures cols[i].name in Fields(cols, includeReadable).entries
    ensures Fields(cols, includeReadable).entries[cols[i].name] == ColumnField(cols[i])
  {
    EmittedAt(cols, includeReadable, i);
    PutAllFreshEntry(Emitted(cols, includeReadable), Position(cols, includeReadable, i), cols[i].name, ColumnField(cols[i]));
  }

  /**
   With distinct names, when the companions are wanted and column `i` takes the
   foreign-key branch, `<name>_readable` is `(str, None)` and comes right after
   the column's own field.
   */
  lemma ReadableFieldInOutput(cols: seq<Column>, includeReadable: bool, i: nat)
    requires DistinctFieldNames(cols, includeReadable)
    requires i < |cols| && includeReadable && TakesForeignKeyBranch(cols[i])
    ensures Position(cols, includeReadable, i) + 1 < |Fields(cols, includeReadable).keys|
    ensures Fields(cols, includeReadable).keys[Position(cols, includeReadable, i)] == cols[i].name
    ensures Fields(cols, includeReadable).keys[Position(cols, includeReadable, i) + 1] == ReadableName(cols[i].name)
    ensures ReadableName(cols[i].name) in Fields(cols, includeReadable).entries
    ensures Fields(cols, includeReadable).entries[ReadableName(cols[i].name)] == READABLE_FIELD
  {
    var ps, p := Emitted(cols, includeReadable), Position(cols, includeReadable, i);
    EmittedCompanionAt(cols, i);
    assert Fields(cols, includeReadable) == PutAll(Empty(), ps);
    PutAllFreshPair(ps, p, cols[i].name, ColumnField(cols[i]), ReadableName(cols[i].name), READABLE_FIELD);
  }

  /**
   A foreign-key field as it appears in the model: optional exactly when the
   column has a default or allows null, otherwise of exactly the value type,
   and always with default `None`, `foreign_key` set and `to` naming the
   referenced table.
   */
  lemma ForeignKeyFieldInOutput(cols: seq<Column>, includeReadable: bool, i: nat)
    requires DistinctFieldNames(cols, includeReadable)
    requires i < |cols| && TakesForeignKeyBranch(cols[i])
    ensures cols[i].name in Fields(cols, includeReadable).entries
    ensures var f := Fields(cols, includeReadable).entries[cols[i].name];
      && (f.ty == Optional(cols[i].valueType) <==> cols[i].hasDefault || cols[i].nullable)
      && (!(cols[i].hasDefault || cols[i].nullable) ==> f.ty == cols[i].valueType)
      && f.spec == Some(FieldSpec(PyNone, true, cols[i].references))
  {
    ColumnFieldInOutput(cols, includeReadable, i);
  }

  /**
   An ordinary field as it appears in the model: optional exactly when the
   column has a default, whatever its nullability, and with no spec.
   */
  lemma OrdinaryFieldInOutput(cols: seq<Column>, includeReadable: bool, i: nat)
    requires DistinctFieldNames(cols, includeReadable)
    requires i < |cols| && !TakesForeignKeyBranch(cols[i])
    ensures cols[i].name in Fields(cols, includeReadable).entries
    ensures var f := Fields(cols, includeReadable).entries[cols[i].name];
      && f.ty == (if cols[i].hasDefault then Optional(cols[i].valueType) else cols[i].valueType)
      && f.spec == None
  {
    ColumnFieldInOutput(cols, includeReadable, i);
  }

  /** Nullability does not change the field of an ordinary column. */
  lemma NullIgnoredForOrdinaryColumns(c: Column, nullable: bool)
    requires !TakesForeignKeyBranch(c)
    ensures ColumnField(c.(nullable := nullable)) == ColumnField(c)
  {
  }

  /** Nullability does change the type of a foreign key without a default. */
  lemma NullMattersForForeignKeys(c: Column)
    requires TakesForeignKeyBranch(c) && !c.hasDefault
    ensures ColumnField(c.(nullable := true)).ty == Optional(c.valueType)
    ensures ColumnField(c.(nullable := false)).ty == c.valueType
  {
  }

  /**
   A subclass of `ForeignKey` passes `isinstance` but takes the ordinary
   branch: its field has no spec and it gets no companion.
   */
  lemma ForeignKeySubclassIsOrdinary(c: Column, includeReadable: bool)
    requires c.cls.ForeignKeySubclass?
    ensures IsInstanceOfForeignKey(c) && !TakesForeignKeyBranch(c)
    ensures ColumnField(c).spec == None
    ensures ColumnPairs(c, includeReadable) == [(c.name, ColumnField(c))]
  {
  }

  /** A table with no selected columns gives a model with no fields. */
  lemma NoColumnsNoFields(t: Table, includeDefaultColumns: bool, includeReadable: bool)
    requires SelectColumns(t, includeDefaultColumns) == []
    ensures Translation(t, includeDefaultColumns, includeReadable).fields == Empty()
  {
  }

  /** A `Movie` table: an `id` primary key, a required `title`, and a nullable `studio` foreign key to `studio`. */
  const MOVIE_ID: Column := Column("id", OtherColumnClass("Serial"), false, false, "", Named("int"))
  const MOVIE_TITLE: Column := Column("title", OtherColumnClass("Varchar"), false, false, "", STR)
  const MOVIE_STUDIO: Column := Column("studio", ForeignKeyClass, false, true, "studio", Named("int"))
  const MOVIE: Table := Table("Movie", [MOVIE_ID, MOVIE_TITLE, MOVIE_STUDIO], [MOVIE_TITLE, MOVIE_STUDIO])

  /** The fields of the `Movie` example: `title` required, `studio` optional with its spec. */
  const TITLE_FIELD: Field := Field(STR, None)
  const STUDIO_FIELD: Field := Field(Optional(Named("int")), Some(FieldSpec(PyNone, true, "studio")))

  /** The `title` column alone gives the one field `title`. */
  lemma MovieTitleStep()
    ensures Fields([MOVIE_TITLE], true) == Empty<Field>().Put("title", TITLE_FIELD)
  {
    assert ColumnPairs(MOVIE_TITLE, true) == [("title", TITLE_FIELD)];
    FieldsSnoc([], MOVIE_TITLE, true);
    PutAllOne(Empty<Field>(), "title", TITLE_FIELD);
  }

  /** The `studio` column then adds `studio` and `studio_readable`. */
  lemma MovieStudioStep()
    ensures Fields([MOVIE_TITLE, MOVIE_STUDIO], true)
            == Empty<Field>().Put("title", TITLE_FIELD).Put("studio", STUDIO_FIELD).Put("studio_readable", READABLE_FIELD)
  {
    var d1 := Empty<Field>().Put("title", TITLE_FIELD);
    var d2 := d1.Put("studio", STUDIO_FIELD);
    assert ReadableName("studio") == "studio_readable";
    assert ColumnPairs(MOVIE_STUDIO, true) == [("studio", STUDIO_FIELD)] + [("studio_readable", READABLE_FIELD)];
    assert [MOVIE_TITLE] + [MOVIE_STUDIO] == [MOVIE_TITLE, MOVIE_STUDIO];
    FieldsSnoc([MOVIE_TITLE], MOVIE_STUDIO, true);
    MovieTitleStep();
    PutAllAppend(d1, [("studio", STUDIO_FIELD)], [("studio_readable", READABLE_FIELD)]);
    PutAllOne(d1, "studio", STUDIO_FIELD);
    PutAllOne(d2, "studio_readable", READABLE_FIELD);
  }

  /**
   Translated without default columns and with companions, `Movie` has exactly
   the fields `title`, `studio` and `studio_readable`, in that order.
   */
  lemma MovieExample()
    ensures Translation(MOVIE, false, true)
            == Model("Movie", Dict(["title", "studio", "studio_readable"],
                                   map["title" := TITLE_FIELD, "studio" := STUDIO_FIELD,
                                       "studio_readable" := READABLE_FIELD]))
  {
    MovieStudioStep();
  }

  /**
   The plain call `create_pydantic_model(Movie)`, with both flags at their
   default `False`: only the non-default columns, and no companion field.
   */
  lemma MoviePlainCall()
    ensures Translation(MOVIE)
            == Model("Movie", Dict(["title", "studio"], map["title" := TITLE_FIELD, "studio" := STUDIO_FIELD]))
  {
    var d1 := Empty<Field>().Put("title", TITLE_FIELD);
    assert ColumnPairs(MOVIE_TITLE, false) == [("title", TITLE_FIELD)];
    assert ColumnPairs(MOVIE_STUDIO, false) == [("studio", STUDIO_FIELD)];
    assert [MOVIE_TITLE] + [MOVIE_STUDIO] == [MOVIE_TITLE, MOVIE_STUDIO];
    FieldsSnoc([], MOVIE_TITLE, false);
    PutAllOne(Empty<Field>(), "title", TITLE_FIELD);
    FieldsSnoc([MOVIE_TITLE], MOVIE_STUDIO, false);
    PutAllOne(d1, "studio", STUDIO_FIELD);
  }

  /** The cache key: the table and both flags. */
  datatype CacheKey = CacheKey(table: Table, includeDefaultColumns: bool, includeReadable: bool)

  /** The `lru_cache` around `create_pydantic_model`, with its `cache_info()` counters. */
  class ModelCache {
    var entries: map<CacheKey, Model>
    var hits: nat
    var misses: nat

    /** Every stored model is the one a fresh call with its key builds. */
    ghost predicate Valid()
      reads this
    {
      forall k :: k in entries ==> entries[k] == Translation(k.table, k.includeDefaultColumns, k.includeReadable)
    }

    constructor ()
      ensures Valid() && entries == map[] && hits == 0 && misses == 0
    {
      entries, hits, misses := map[], 0, 0;
    }

    /**
     A call through the cache. A hit returns the stored model and changes
     nothing but the hit count; a miss builds the model, counts a miss and
     stores the model under the call's key. Either way the model is the one a
     fresh call builds, and afterwards it is stored under the call's key.
     */
    method Call(table: Table, includeDefaultColumns: bool := false, includeReadable: bool := false) returns (model: Model)
      requires Valid()
      modifies this
      ensures Valid()
      ensures model == Translation(table, includeDefaultColumns, includeReadable)
      ensures CacheKey(table, includeDefaultColumns, includeReadable) in entries
      ensures entries[CacheKey(table, includeDefaultColumns, includeReadable)] == model
      ensures CacheKey(table, includeDefaultColumns, includeReadable) in old(entries) ==>
                && model == old(entries)[CacheKey(table, includeDefaultColumns, includeReadable)]
                && entries == old(entries) && hits == old(hits) + 1 && misses == old(misses)
      ensures CacheKey(table, includeDefaultColumns, includeReadable) !in old(entries) ==>
                && entries == old(entries)[CacheKey(table, includeDefaultColumns, includeReadable) := model]
                && hits == old(hits) && misses == old(misses) + 1
    {
      var key := CacheKey(table, includeDefaultColumns, includeReadable);
      if key in entries {
        model := entries[key];
        hits := hits + 1;
      } else {
        model := CreatePydanticModel(table, includeDefaultColumns, includeReadable);
        misses := misses + 1;
        entries := entries[key := model];
      }
    }
  }

  /** Two calls with the same arguments: the second is a hit and returns the same model. */
  method RepeatedCall(cache: ModelCache, table: Table, includeDefaultColumns: bool := false, includeReadable: bool := false)
    returns (first: Model, second: Model)
    requires cache.Valid()
    modifies cache
    ensures cache.Valid()
    ensures first == second == Translation(table, includeDefaultColumns, includeReadable)
    ensures cache.entries == old(cache.entries)[CacheKey(table, includeDefaultColumns, includeReadable) := first]
    ensures cache.hits == old(cache.hits) + (if CacheKey(table, includeDefaultColumns, includeReadable) in old(cache.entries) then 2 else 1)
    ensures cache.misses == old(cache.misses) + (if CacheKey(table, includeDefaultColumns, includeReadable) in old(cache.entries) then 0 else 1)
  {
    first := cache.Call(table, includeDefaultColumns, includeReadable);
    second := cache.Call(table, includeDefaultColumns, includeReadable);
  }
}
