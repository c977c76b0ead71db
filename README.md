# piccolo_api serializers, modelled in Dafny

This project models `create_pydantic_model` from `piccolo_api/crud/serializers.py`.
The function turns a piccolo table into a pydantic model class, and `functools.lru_cache`
memoizes it.

- The translator picks the columns to translate: all of `table._meta.columns`, or only
  `table._meta.non_default_columns`.
- It walks those columns in order and fills a Python dict `columns` with one
  `(type, spec)` field definition per column.
- A column whose class is exactly `ForeignKey` gets a type that is optional when the
  column has a default or allows null. Its spec is `pydantic.Field(default=None,
  foreign_key=True, to=<referenced tablename>)`. When `include_readable` is set, it also
  gets a companion field `<name>_readable` of `(str, None)`.
- Every other column gets a type that is optional only when it has a default, and its
  spec is `None`.
- The model is built from the table's class name and that dict.

Files:

- `py_dict.dfy` (module `PyDict`): the insertion-ordered dict that `columns[k] = v`
  fills in. Assigning a new key appends it. Assigning an existing key replaces the value
  in place. There are lemmas about a run of such assignments (`PutAll`).
- `serializers.dfy` (module `Serializers`): the column, type and field records, and the
  per-column mapping `ColumnField`.
  - `Emitted` is the reference definition the loop is proved against: the list of assignments the loop makes, in order.
    `Fields` is the dict those assignments build, and `Translation` is the model.
  - `CreatePydanticModel` is the loop itself, proved equal to `Translation`. Like the
    Python signature at serializers.py:20-22, `Translation`, `CreatePydanticModel` and
    `ModelCache.Call` give both flags the default `false`, so `CreatePydanticModel(t)`
    is the plain call `create_pydantic_model(t)`.
  - Proof helpers that the rows below refer to:
    - `Position(cols, flag, i)` is where column i's own assignment lands: i plus the
      number of companions assigned before it.
    - `CountForeignKeys` counts the columns whose class is exactly `ForeignKey`.
    - `FieldsSnoc` and `PyDict.PutAllAppend` split a run of assignments into two runs
      made one after the other.
  - The lemmas state the selection, optionality, companion, order and count properties.
  - `ModelCache` is the `lru_cache`, with its hit and miss counters.

A column is modelled as a record with these fields:

- `name`
- `cls`: exactly `ForeignKey`, a subclass of it, or another class
- `hasDefault`: stands for `hasattr(column, "default")`
- `nullable`: stands for `column._meta.null`
- `references`: the referenced table's `_meta.tablename`
- `valueType`

Python types are an abstract tag (`Named`, or `Optional` wrapping another tag). A table
is its class name, its column list and its non-default column list.

Two details of the code, and how the model treats them:

- `lru_cache()` has a default `maxsize` of 128, so the real cache is bounded. The model
  has no bound (see Left out).
- The companion is declared `(str, None)`: its type is `str`, and the `None` is
  pydantic's default value. The model records type `str` with no spec.

## Model

| member | source | states |
|---|---|---|
| `PyDict.Dict.Put` | piccolo_api/crud/serializers.py:51-60 | `columns[k] = v` keeps the dict well formed (no key listed twice, listed keys are exactly the keys with values); the value of `k` becomes `v`; existing keys keep their positions; a new key is appended at the end |
| `PyDict.PutAll` | piccolo_api/crud/serializers.py:37-60 | any run of assignments, starting from a well-formed dict, leaves a well-formed dict |
| `PyDict.PutAllKeys` | piccolo_api/crud/serializers.py:31-60 | after a run of assignments, the keys are the old keys plus the assigned ones; old keys keep their places at the front; no more keys are added than there are assignments; unassigned keys keep their values |
| `PyDict.PutAllLastWins` | piccolo_api/crud/serializers.py:51-60 | a key ends up with the value of the last assignment to it (dict overwrite semantics) |
| `PyDict.PutAllFreshKeys` | piccolo_api/crud/serializers.py:51-60 | when all assigned keys are new and distinct, the key order is the old order followed by the assigned keys in assignment order |
| `PyDict.PutAllFreshKeysAt` | piccolo_api/crud/serializers.py:51-60 | under the same conditions, the p-th assigned key stands at position (old size + p) and holds the value it was assigned |
| `PyDict.PutAllFreshEntry` | piccolo_api/crud/serializers.py:31-60 | starting from `{}` with no key assigned twice, the p-th assignment's key stands at position p and holds the value it was assigned |
| `PyDict.PutAllFreshPair` | piccolo_api/crud/serializers.py:51-53 | under the same conditions, two assignments in a row put their keys at neighbouring positions, and the second key holds its assigned value |
| `PyDict.Empty` | piccolo_api/crud/serializers.py:31 | `columns = {}` is a well-formed dict with no keys and no values |
| `Serializers.TakesForeignKeyBranch` | piccolo_api/crud/serializers.py:39 | the `type(column) == ForeignKey` test implies `isinstance(column, ForeignKey)`, and a subclass of `ForeignKey` fails it |
| `Serializers.ReadableName` | piccolo_api/crud/serializers.py:53 | the companion name is the column name followed by the suffix `_readable`, and it never equals the column name |
| `Serializers.ColumnPairs` | piccolo_api/crud/serializers.py:39-60 | a column makes its own assignment first, then one more, the `_readable` companion `(str, None)`, exactly when `include_readable` is set and the column is an exact `ForeignKey` |
| `Serializers.ColumnField` | piccolo_api/crud/serializers.py:39-60 | a column's field type is its value type or `Optional` of it; it is optional exactly when the column has a default or, for an exact `ForeignKey` only, allows null; it carries a spec exactly for an exact `ForeignKey`, and that spec is `default=None, foreign_key=True, to=<referenced tablename>` |
| `Serializers.Emitted` | piccolo_api/crud/serializers.py:37-60 | the loop makes one assignment per column plus, when `include_readable` is set, one per exact foreign-key column |
| `Serializers.Fields` | piccolo_api/crud/serializers.py:31-60 | the dict that all the loop's assignments build, starting from `{}`, is well formed |
| `Serializers.Translation` | piccolo_api/crud/serializers.py:31-64 | the model a call builds is named after the table, its field dict is well formed, and it has at most one field per selected column plus, when `include_readable` is set, one per exact foreign-key column |
| `Serializers.CreatePydanticModel` | piccolo_api/crud/serializers.py:31-64 | the loop, which assigns into `columns` column by column, builds exactly the model `Translation` describes, named after the table, with a well-formed field dict |
| `Serializers.EmittedAppend` | piccolo_api/crud/serializers.py:37-60 | the assignments for two column lists in a row are the first list's assignments followed by the second's |
| `Serializers.FieldsNextColumn` | piccolo_api/crud/serializers.py:37-60 | the dict after one more column is the dict so far with that column's assignments made |
| `Serializers.EmittedNames` | piccolo_api/crud/serializers.py:37-60 | a name is assigned exactly when some column gives rise to it: the column's own name, or its `_readable` name when `include_readable` is set and the column is an exact `ForeignKey` |
| `Serializers.FieldNames` | piccolo_api/crud/serializers.py:32-60 | the model has a field `k` exactly when some column that `SelectColumns` picks (all columns when `include_default_columns` is set, otherwise only the non-default ones) gives rise to `k`; so companions appear only for exact foreign keys and only when `include_readable` is set |
| `Serializers.DefaultColumnsOnlyAdd` | piccolo_api/crud/serializers.py:32-36 | when the non-default columns are among the columns, the field names without default columns are a subset of the field names with them |
| `Serializers.FieldOrderAndCount` | piccolo_api/crud/serializers.py:31-60 | with no name assigned twice, the fields come out in assignment order, and their count is the number of selected columns plus, when `include_readable` is set, the number of exact foreign-key columns |
| `Serializers.EmittedAt` | piccolo_api/crud/serializers.py:37-60 | column i's own assignment is at position i plus the number of companions before it; its companion, if any, comes right after it |
| `Serializers.EmittedCompanionAt` | piccolo_api/crud/serializers.py:51-53 | with companions wanted, an exact foreign key's own assignment is at its position and its `_readable` assignment `(str, None)` is right after it |
| `Serializers.PositionsIncrease` | piccolo_api/crud/serializers.py:37-60 | a later column's position is past an earlier column's fields and companion: the fields keep column order |
| `Serializers.ColumnFieldInOutput` | piccolo_api/crud/serializers.py:38-60 | with distinct names, column i's field is in the model at its position, holding the field computed for that column |
| `Serializers.ReadableFieldInOutput` | piccolo_api/crud/serializers.py:52-53 | with distinct names, `include_readable` set and column i an exact foreign key, `<name>_readable` holds `(str, None)` and sits right after the column's own field |
| `Serializers.ForeignKeyFieldInOutput` | piccolo_api/crud/serializers.py:39-51 | in the model, an exact foreign key's field is optional exactly when the column has a default or allows null; otherwise its type is exactly the value type; its spec is always `default=None, foreign_key=True, to=<referenced tablename>` |
| `Serializers.OrdinaryFieldInOutput` | piccolo_api/crud/serializers.py:54-60 | in the model, any other column's field is optional exactly when the column has a default, and carries no spec |
| `Serializers.NullIgnoredForOrdinaryColumns` | piccolo_api/crud/serializers.py:55-60 | nullability does not change the field of a column that is not an exact `ForeignKey` |
| `Serializers.NullMattersForForeignKeys` | piccolo_api/crud/serializers.py:40-45 | for an exact foreign key without a default, allowing null makes the type optional and disallowing it leaves the value type |
| `Serializers.ForeignKeySubclassIsOrdinary` | piccolo_api/crud/serializers.py:39 | a subclass of `ForeignKey` passes `isinstance` but takes the ordinary branch: no spec and no companion |
| `Serializers.NoColumnsNoFields` | piccolo_api/crud/serializers.py:31-37 | with no selected columns, the model has no fields |
| `Serializers.MovieExample` | piccolo_api/crud/serializers.py:31-64 | a `Movie` table with `id`, a required `title` and a nullable `studio` foreign key to `studio`, translated without default columns and with companions, has exactly `title` (required `str`), `studio` (optional, foreign-key spec to `studio`) and `studio_readable` (`str`), in that order |
| `Serializers.MoviePlainCall` | piccolo_api/crud/serializers.py:20-22 | the one-argument call on `Movie` uses both defaults `False`: the non-default columns `title` and `studio` only, in that order, with no `studio_readable` |
| `Serializers.ModelCache.constructor` | piccolo_api/crud/serializers.py:19 | the cache starts empty with zero hits and misses |
| `Serializers.ModelCache.Call` | piccolo_api/crud/serializers.py:19-22 | a call through the cache always returns the model a fresh call builds, and afterwards that model is stored under the key (table, include_default_columns, include_readable); a hit returns the stored model and changes only the hit count; a miss computes the model, counts a miss and stores it; every stored model equals the fresh computation for its key (the invariant `Valid`) |
| `Serializers.RepeatedCall` | piccolo_api/crud/serializers.py:19-22 | two calls with the same arguments return the same model, the fresh computation; afterwards the cache holds the old entries plus that model under the call's key; the second call is a hit, and there is one miss if the key was new and none otherwise |

## Left out

- The pydantic side (`pydantic.create_model`, `pydantic.Field`, the `Config` class with its UUID `json_encoders` and `arbitrary_types_allowed`, serializers.py:14-16 and 62-64) is foreign library behaviour. It is not modelled: the model is an opaque record of the class name and the ordered field dict. Errors that pydantic raises while building the class are not modelled either.
- Real Python types: `value_type`, `str` and `t.Optional[...]` are abstract tags, and `Optional` is not flattened the way `typing` flattens nested unions.
- How piccolo computes `_meta.columns` and `_meta.non_default_columns`, and how `hasattr(column, "default")` probes the column: these are inputs (two column lists and a boolean per column). `DefaultColumnsOnlyAdd` takes as a hypothesis that the non-default columns are among the columns.
- The asyncpg `UUID` type and its string encoding are external.
- ModelCache.Call: does not model `lru_cache`'s bound of 128 entries, its least-recently-used eviction or its recency reordering on a hit. So a miss never evicts, and the stated new cache contents hold only while at most 128 distinct argument triples have been used. A cached model still always equals the fresh computation.
- ModelCache.Call: table identity is modelled as equality of table values. `lru_cache` also keys on how the arguments were passed (positional, keyword or defaulted), so two calls that differ only in that way are separate cache entries in Python; the model keys on the plain triple.
- Thread safety of the cache, and hashing, are not modelled; the model is single-threaded.
