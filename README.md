# libtcd tide-record codec, modelled in Dafny

python-libtcd is a Python binding to libtcd, the C library that reads
and writes XTide's tide constituent databases (TCD files). This project
models the core of the binding: the codec in `libtcd/api.py` that turns
a Python `ReferenceStation` or `SubordinateStation` into the flat C
`TIDE_RECORD` that libtcd stores, and turns a stored record back into a
station. It also models `timedelta_total_minutes` from `libtcd/util.py`.

The model is organised by the program's own structure:

- `Values` holds the Python-level values a station attribute can take.
  These are text, int, float, a date, a `timedelta`, an ordered
  `xfields` dictionary, a coefficient list, a nested station and `None`.
- `Stations` models the classes' `_attributes` defaults and the keyword
  constructor `StationHeader.__init__`.
- `Records` models the `TIDE_RECORD` columns and what ctypes does when a
  field is assigned. Integers wrap to the column width. Text longer than
  the array is a ValueError. Text reads back up to the first NUL. A
  value of the wrong type is a TypeError.
- `Scalars`, `OffsetText`, `XFields`, `StringTables`, `Coefficients` and
  `Descriptors` model the per-attribute descriptors (`_attr_descriptor`
  and its subclasses) and the three descriptor lists.
- `Constituents` models `NodeFactors` and `Tcd._pack_constituents`.
- `Codec` defines record packing and unpacking and the database
  operations they call as functions over a database value
  `Db(records, tables, constituents)`. These operations are `index`,
  `_append`, `__getitem__` and reference-station resolution. Every
  function returns its result paired with the database afterwards,
  because packing a subordinate station can append its reference
  station to the database before a later descriptor fails.
- `TideDb.Tcd` is the database object. It has mutable `records` and
  `tables` fields. Its methods run the packing loop, the record search
  and the append in place. Each method is proved equal to the `Codec`
  function of the old state, for both the result and the new state.

Errors are values: `Result<T>` carries the Python exception each path
raises (ValueError, AssertionError, TypeError, AttributeError, KeyError,
IndexError).

## Model

| member | source | states |
|---|---|---|
| `Util.TotalMinutes` | libtcd/util.py:6-13 | Fails (ValueError) exactly when `strict` is set and the delta is not a whole number of minutes. Otherwise the result is the nearest minute, and an exact half minute goes to the lower minute. |
| `Util.Minutes` | libtcd/util.py:6-13 | The non-strict call never fails, and its result is the nearest minute to the delta. |
| `Util.NearestMinuteUnique` | libtcd/util.py:11-13 | The rounding rule picks exactly one minute for every delta, so the result is fully determined. |
| `Util.WholeMinutesExact` | libtcd/util.py:8-13 | A delta that is a whole number of minutes gives exactly that number, strict or not. |
| `Util.TotalMinutesVectors` | libtcd/tests/test_util.py:9-21 | The seven documented cases: 0, 1 h, ±29.99 s, ±30.01 s, -2 h. |
| `Util.HalfMinuteRoundsDown` | libtcd/util.py:11-12 | +30 s gives 0 minutes and -30 s gives -1 minute: a half minute rounds toward minus infinity. |
| `Util.FromMicrosOfMicros` | libtcd/util.py:7 | A normalised `timedelta` is determined by its total length in microseconds. |
| `Util.Negate` | libtcd/api.py:405 | Negating a delta negates its length. |
| `Scalars.PackDate` | libtcd/api.py:395-397 | The packed date is a YYYYMMDD integer whose decimal digit groups are the year, the month and the day. |
| `Scalars.UnpackDate` | libtcd/api.py:389-393 | Succeeds exactly when the digit groups form a valid calendar date, and otherwise fails with ValueError. A success packs back to the same integer. |
| `Scalars.DateRoundTrip` | libtcd/api.py:388-397 | Unpacking a packed date gives the date back. |
| `Scalars.ZeroIsNoDate` | libtcd/api.py:553 | 0, the null value of the date columns, is not a valid date. |
| `Scalars.DateVector` | libtcd/tests/test_api.py:289-299 | 2001-02-03 and 20010203 correspond in both directions. |
| `Scalars.UnpackOffset` | libtcd/api.py:400-405 | Succeeds exactly when the minutes part `abs(p) % 100` is below 60, and otherwise fails with AssertionError. A success is ±(hours·60 + minutes) minutes long. |
| `Scalars.PackOffset` | libtcd/api.py:407-414 | The packed value has a valid minutes part and stands for the delta's rounded minute count. |
| `Scalars.OffsetRoundTrip` | libtcd/api.py:399-414 | Unpacking a packed offset gives the delta rounded to whole minutes. |
| `Scalars.WholeOffsetRoundTrip` | libtcd/api.py:399-414 | A whole-minute delta survives packing and unpacking exactly. |
| `Scalars.PackedOffsetRoundTrip` | libtcd/api.py:399-414 | Every packed value that unpacks packs back to the same integer. |
| `Scalars.HhmmInjective` | libtcd/api.py:403-414 | Two valid ±HHMM integers that stand for the same minute count are equal. |
| `Scalars.PackOffsetNeverNull` | libtcd/api.py:587-588 | No delta packs to NULLSLACKOFFSET (0xA00 = 2560). Its minutes part 60 is one no packed offset has, so a stored slack offset never collides with the null value. |
| `Scalars.OffsetVectors` | libtcd/tests/test_api.py:301-315 | -9:30 packs to -930 and back, and 60 fails with AssertionError. |
| `Scalars.UnpackDirection` | libtcd/api.py:430-434 | The result is the integer itself exactly when it lies in [0, 360), and None otherwise. |
| `Scalars.PackDirection` | libtcd/api.py:436-440 | Succeeds exactly inside [0, 360) with the value itself, and otherwise fails with ValueError. |
| `Scalars.DirectionRoundTrip` | libtcd/api.py:429-440 | Packing and unpacking are mutually inverse on valid directions. |
| `Scalars.DirectionVectors` | libtcd/tests/test_api.py:320-335 | 361 unpacks to None and is refused by pack; 42 passes both ways. |
| `OffsetText.ReadFormat` | libtcd/api.py:417-427 | `timeoffset.__str__` loses nothing but rounding: reading its "[-+]HH:MM" text back gives the delta's rounded minutes. |
| `OffsetText.ReadFormatMinutes` | libtcd/api.py:421-427 | The text for a minute count reads back to that count, for every sign and size. |
| `OffsetText.ReadSigned` | libtcd/api.py:425-427 | A signed "HH:MM" text reads back to ±(HH·60 + MM). |
| `OffsetText.ReadDecimalOfDecimal` | libtcd/api.py:427 | The decimal digits of a number read back to the number. |
| `OffsetText.TwoDigitsOfSmall` | libtcd/api.py:427 | `%02d` of a number below 100 is exactly two digits. |
| `OffsetText.FormatVectors` | libtcd/tests/test_api.py:139-149 | The five documented cases: 0:00, +01:00, +02:00, +02:01, -01:00. |
| `StringTables.Lookup` | libtcd/api.py:367-368 | An index into the table gives its entry. Any other index gives "Unknown", as libtcd's getters do. |
| `StringTables.Find` | libtcd/api.py:378-379 | The result is the first position of the string, or -1 exactly when the string is absent. |
| `StringTables.FindOrAdd` | libtcd/api.py:370-376 | The result indexes the string in a table that extends the old one. A present string keeps its first position and an absent one is appended at the end, so this never fails. |
| `StringTables.LookupAfterFindOrAdd` | libtcd/api.py:367-376 | Looking up the index `find_or_add` returns gives the string back. |
| `StringTables.FindOrAddIdempotent` | libtcd/api.py:370-376 | A second `find_or_add` of the same string changes nothing and returns the same index. |
| `StringTables.FindOrAddKeepsEntries` | libtcd/api.py:370-376 | Adding a string keeps every existing index's entry. |
| `StringTables.TableVectors` | libtcd/tests/test_api.py:242-261 | The table tests: out-of-range indices read "Unknown", "Unknown" is found at 0, and "missing" is added at 2 and read back. |
| `StringTables.Tables.WithTable` | libtcd/api.py:363-365 | Replacing one named table leaves every other table unchanged. |
| `StringTables.GrowsToTransitive` | libtcd/api.py:370-376 | "Every table only grows" composes across successive packs. |
| `XFields.PackFields` | libtcd/api.py:452-461 | The loop builds exactly `Fold(e)`. Each item is `key:` plus its value with every newline continued by a space, then a newline. |
| `XFields.UnpackFields` | libtcd/api.py:443-450 | The regular-expression scan with unfolding gives exactly `Parse(s)`: the matches in order, unfolded, a later duplicate key updating in place. |
| `XFields.UnfoldFoldValue` | libtcd/api.py:449-460 | Unfolding a folded value gives the value back. |
| `XFields.MatchesFold` | libtcd/api.py:447-460 | On a packed block followed by inert text, the regular expression matches exactly the folded items in order. |
| `XFields.ParseFold` | libtcd/api.py:442-461 | The round trip: parsing a packed dictionary, even with trailing text that adds no item, gives the dictionary back. Keys must be non-empty, newline-free and not start with a space, and no value may have a colon on its first line. |
| `XFields.EntryMatches` | libtcd/api.py:447 | One packed item is matched as one key and its folded value, and the scan resumes after it. |
| `XFields.NoColonNoMatch` | libtcd/api.py:447 | Text without a colon yields no item. |
| `XFields.CollectDistinct` | libtcd/api.py:446-449 | Collecting matches with distinct keys into the ordered dictionary keeps them all, in order. |
| `XFields.Put` | libtcd/api.py:449 | Assigning an existing key keeps the dictionary's size and replaces the value at that key's first position, leaving every other item alone. A new key goes at the end. |
| `XFields.FieldsVector` | libtcd/tests/test_api.py:343-356 | The documented item pair packs to "a:b\n b2\nc: d \n" and parses back, trailing "\nfoo\n" included. |
| `Coefficients.ByNameKeys` | libtcd/api.py:510-511 | The dictionary built from the coefficient list has exactly the constituent names of the list as keys. |
| `Coefficients.ByNameLast` | libtcd/api.py:510-511 | For a repeated name, the dictionary holds the last coefficient of that name. |
| `Coefficients.PackCoefficients` | libtcd/api.py:509-522 | The loop over the constituent table computes `Packed`: 255 amplitude and epoch slots, or AssertionError when a coefficient names no table constituent, or IndexError past slot 255. |
| `Coefficients.CoefficientsRoundTrip` | libtcd/api.py:499-522 | Unpacking packed slots gives one coefficient per table constituent that received a non-zero amplitude, in table order. |
| `Coefficients.PackedPlacesEach` | libtcd/api.py:515-519 | Slot `i` holds the (last) coefficient naming table constituent `i`, and 0.0 when there is none. |
| `Coefficients.UnknownConstituentRefused` | libtcd/api.py:520 | With at most 255 constituents, packing fails exactly when some coefficient names a constituent outside the table, and then with AssertionError. |
| `Coefficients.DuplicatesCollapse` | libtcd/api.py:510-511 | Of two coefficients for one constituent, only the later one matters. |
| `Coefficients.Unpacked` | libtcd/api.py:501-507 | The result is no longer than the table, and every coefficient in it has a non-zero amplitude and a constituent of the table. |
| `Coefficients.Zipped` | libtcd/api.py:504-505 | `zip` pairs up as many slots as the shortest of the three sequences has: at most each length, and equal to one of them. |
| `Coefficients.UnpackedSlots` | libtcd/api.py:501-507 | What `unpack` reads back corresponds one to one, in increasing slot order, to the zipped slots whose amplitude is not zero. Each coefficient carries its slot's amplitude, epoch and table constituent. |
| `Coefficients.CoefficientVector` | libtcd/tests/test_api.py:420-440 | One coefficient (1.5, 2.5) on a one-constituent table packs into slot 0 with zeros elsewhere, and unpacks back. |
| `Constituents.FactorAtAsWritten` | libtcd/api.py:46-47 | The subscript as written: a year in range gives its factor. Years down to `start_year - len` also succeed, by Python's negative indexing. Anything else is an IndexError. |
| `Constituents.FactorAtAsWrittenOutOfRange` | libtcd/api.py:46-47 | A concrete table where 1969, a year before the range, yields the last factor, and where `in` raises IndexError for 1973. |
| `Constituents.FactorAt` | libtcd/api.py:25-47 | The mapping a `Mapping` promises: a factor exactly for the years it iterates over, and KeyError otherwise. |
| `Constituents.Contains` | libtcd/api.py:36-40 | Membership holds exactly for the iterated years. |
| `Constituents.FactorAtAgrees` | libtcd/api.py:46-47 | On the years in range, the subscript as written and the mapping agree. |
| `Constituents.MaxStartIsMaximum` | libtcd/api.py:278-279 | The common start year is the largest start year of the constituents, and some constituent starts then. |
| `Constituents.MinEndIsMinimum` | libtcd/api.py:280-281 | The common end year is the smallest end year, and some constituent ends then. |
| `Constituents.CommonYearsCovered` | libtcd/api.py:297-298 | Every year of the common range is covered by every constituent's node factors. |
| `Constituents.FactorRows` | libtcd/api.py:295-298 | The two rows hold, at position `j`, the equilibrium and node factor for year `start_year + j`. |
| `Constituents.PackConstituents` | libtcd/api.py:277-301 | Succeeds exactly when the table is non-empty and the common range has at least one year. Otherwise it fails with ValueError, which is also what `max()` of an empty table raises. A success gives the count, the names and speeds in order, the common start year and length, and every constituent's factor rows over that range. |
| `Constituents.CommonRangeExample` | libtcd/api.py:277-282 | Tables covering 1970-1974 and 1972-1979 share the range 1972-1974. |
| `Stations.InitAttributes` | libtcd/api.py:64-74 | The loop over `_attributes` computes `Initialised`: each attribute takes its keyword or its default, or TypeError for a leftover keyword. |
| `Stations.AssignMeaning` | libtcd/api.py:66-71 | After the loop, the unused keywords are those naming no attribute, and every attribute is set from its keyword or else its default. Other attributes remain. |
| `Stations.InitialisedMeaning` | libtcd/api.py:64-74 | Construction succeeds exactly when every keyword names an attribute and fails with TypeError otherwise. The attributes set are exactly the class's, each from its keyword or default. |
| `Stations.AttributesDistinct` | libtcd/api.py:51-134 | The attribute lists gathered along each class's MRO name each attribute once, and never `name` or the class's extra parameter. |
| `Stations.ReferenceParameters` | libtcd/api.py:109-122 | `name` and `coefficients` clash with no attribute of a reference station. |
| `Stations.SubordinateParameters` | libtcd/api.py:82-88 | `name` and `reference_station` clash with no attribute of a subordinate station. |
| `Stations.Build` | libtcd/api.py:64-88 | Succeeds exactly when `name` and the extra parameter are given and every other keyword names an attribute, and fails with TypeError otherwise. The station's attributes are exactly these, keywords winning over defaults. |
| `Stations.Construct` | libtcd/api.py:109-134 | `ReferenceStation(**kw)` and `SubordinateStation(**kw)` have the same meaning, with the MRO-gathered attributes of each class. |
| `Stations.RequiredOnly` | libtcd/api.py:120-122 | A station built from the required arguments alone has every other attribute at its default. Leaving out the extra argument is a TypeError. |
| `Stations.DefaultVectors` | libtcd/api.py:101-117 | Sample defaults: confidence 9, a fresh empty xfields dictionary, tzfile "Unknown". |
| `Records.RecordTypeName` | libtcd/_libtcd.py:56-94 | Only the record-type column is called `record_type`. |
| `Records.FieldNameInjective` | libtcd/_libtcd.py:56-94 | No two columns of `TIDE_RECORD` share a name, so a keyword names at most one column. |
| `Records.WrapSigned` | libtcd/_libtcd.py:56-94 | Assigning to a signed C column gives a value in range, congruent to the input modulo the width, and unchanged when already in range. |
| `Records.WrapUnsigned` | libtcd/_libtcd.py:56-94 | The same for unsigned columns. |
| `Records.UpToNul` | libtcd/_libtcd.py:56-94 | A char array reads back as the prefix before the first NUL, and a NUL-free text whole. |
| `Records.Convert` | libtcd/_libtcd.py:56-94 | A ctypes assignment succeeds exactly for an int into an integer column, an int or float into a float column, and a text no longer than a char array. Over-long text is a ValueError and any other refusal a TypeError. Results have the column's type. |
| `Records.WithRecordNumber` | libtcd/api.py:222-225 | Only the record number changes when libtcd numbers an appended record. |
| `Records.StoreAll` | libtcd/api.py:622 | Storing the packed fields succeeds exactly when each converts, and holds each field's converted value. |
| `Records.StoreAllFirstRefusal` | libtcd/api.py:622 | A failure is the error of the first refused field in storing order. |
| `Records.Build` | libtcd/api.py:622 | `TIDE_RECORD(**packed)` succeeds exactly when every packed field converts. Every column then holds its converted value, or zero when not given, and a failure is the first refused field's error. |
| `Records.AssembleGet` | libtcd/api.py:622 | A record assembled from well-typed cells reads back each cell, and zero for a missing one. |
| `Records.BuiltInt` | libtcd/api.py:622 | An in-range integer given for a column reads back unchanged. |
| `Records.BuiltAbsent` | libtcd/api.py:622 | A column not given reads back as zero. |
| `Records.BuiltSigned` | libtcd/api.py:622 | An integer given for a signed column reads back wrapped to the column's width. |
| `Records.ColumnOf` | libtcd/_libtcd.py:56-94 | The C type of each `TIDE_RECORD` column, as declared in `_fields_`. A data table, with no contract: `Records.Convert` and the `Records.Built…` lemmas state what it means for stored values. |
| `Records.Get` | libtcd/_libtcd.py:56-94 | Reading one column of a record as a Python value. A data table, with no contract: `Records.AssembleGet` states that it reads back what was stored. |
| `Records.TextStoredIntact` | libtcd/_libtcd.py:56-94 | A NUL-free text that fits its array is stored unchanged. |
| `Records.IntegersWrap` | libtcd/_libtcd.py:56-94 | Samples of ctypes wrap-around: 256 in `confidence` (uint8) is 0, 2^31 in `zone_offset` (int32) is -2^31, and -1 in `tzfile` (int16) stays -1. |
| `Descriptors.ReferenceOnlyInSubordinate` | libtcd/api.py:541-589 | The reference-station descriptor appears only in the subordinate list, right after the common descriptors. |
| `Descriptors.AttrsFor` | libtcd/api.py:541-589 | The descriptor list of each station class, `_COMMON_ATTRS` followed by the class's own descriptors. No two descriptors of a list emit the same column, so `packed.update` takes every column from one descriptor only. |
| `Descriptors.PackValue` | libtcd/api.py:350-461 | The `pack_value` of each descriptor kind. String tables only grow. A table string always gets an index that looks up to it. An enum string succeeds exactly when it is already in the table and fails with ValueError otherwise. |
| `Descriptors.UnpackValue` | libtcd/api.py:350-461 | The `unpack_value` of each kind. Plain and text columns pass through. Dates and offsets succeed exactly when valid and re-pack to the stored integer. Directions are None exactly when out of range. Table indices look up their string. Errors are ValueError, AssertionError or TypeError. |
| `Descriptors.PackAttrValue` | libtcd/api.py:342-348 | A None attribute packs to the descriptor's null value, if it has one. Anything else goes through `pack_value`. |
| `Descriptors.PackAttr` | libtcd/api.py:342-348 | A missing attribute is an AttributeError that leaves the tables unchanged. Otherwise the attribute value is packed. |
| `Descriptors.UnpackAttr` | libtcd/api.py:334-340 | A stored null value unpacks to None. Anything else goes through `unpack_value`. |
| `Descriptors.NullValuesStored` | libtcd/api.py:541-589 | Every descriptor with a null value in the three lists round-trips None through pack, storage in its column and unpack. |
| `Descriptors.StrRoundTrips` | libtcd/api.py:381-386 | A NUL-free text that fits its array and is not the null value round-trips. |
| `Descriptors.EmptyStringLossy` | libtcd/api.py:546 | An empty `source` string comes back as None, because "" is that column's null value. |
| `Descriptors.DateRoundTrips` | libtcd/api.py:388-397 | Every calendar date round-trips through a date column. |
| `Descriptors.OffsetRoundTrips` | libtcd/api.py:399-414 | A whole-minute offset whose packed value fits int32 round-trips. |
| `Descriptors.AbsentOffsetIsZero` | libtcd/api.py:409-410 | A None offset without a null value packs to 0, which unpacks to a zero delta rather than None. |
| `Descriptors.SlackOffsets` | libtcd/api.py:587-588 | `flood_begins`/`ebb_begins` store None as 0xA00 and read it back as None, while 0 reads back as a zero delta. |
| `Descriptors.DirectionRoundTrips` | libtcd/api.py:429-440 | Valid directions round-trip. Invalid ones are refused by pack with ValueError and read back as None. |
| `Descriptors.FractionalDirectionTruncated` | libtcd/api.py:440 | A direction of 42.5 packs to 42 (`int()` truncation). |
| `Descriptors.XFieldsRoundTrips` | libtcd/api.py:442-461 | A foldable xfields dictionary that fits the column round-trips. |
| `Descriptors.TableRoundTrips` | libtcd/api.py:356-376 | A string-table attribute round-trips whenever its index fits the column and is not the null value. |
| `Descriptors.EnumRoundTrips` | libtcd/api.py:378-379 | An enum string present in the table round-trips, and an absent one is refused with ValueError. |
| `Descriptors.AbsentTableString` | libtcd/api.py:370-372 | A None table attribute without a null value packs to 0 and reads back as entry 0's string. |
| `Descriptors.ZeroMultiplyLossy` | libtcd/api.py:583 | A level multiplier of 0.0 comes back as None. |
| `Descriptors.FloatRoundTrips` | libtcd/api.py:350-354 | A float that is not the null value round-trips through a float column. |
| `Descriptors.DateDescriptorVectors` | libtcd/tests/test_api.py:289-299 | The date descriptor's documented pair, and 0 as None in both directions. |
| `Codec.PackCoordinates` | libtcd/api.py:489-497 | AttributeError exactly when latitude or longitude is missing. Either one None packs both as 0. Otherwise both are passed on. |
| `Codec.PackCoefficientSlots` | libtcd/api.py:509-522 | A success means the station has a coefficient list, and the two columns are the packed amplitude and epoch slots. |
| `Codec.PackRecord` | libtcd/api.py:613-622 | `_pack_tide_record` as a definition: the defaults updated by each descriptor's pairs, then stored. No contract. What it promises is stated by `Codec.PackedColumn`, `Codec.PackedName`, `Codec.PackedReference`, `Codec.PackedHeader`, `Codec.ReferenceKeepsDefaults` and `Codec.PackRecordExtends`. |
| `Codec.PackAll` | libtcd/api.py:620-621 | The descriptor loop as a definition, with no contract. `Codec.PackAllAt`, `Codec.PackAllKeeps` and `Codec.PackAllConcat` state its meaning. |
| `Codec.PackDescriptor` | libtcd/api.py:342-348 | Each descriptor emits only the columns it owns. |
| `Codec.RecordsMatch` | libtcd/api.py:257-262 | `records_match` as a definition: the same record type and the same name. |
| `Codec.FindMatch` | libtcd/api.py:250-262 | -1 exactly when no record `records_match` the target. Otherwise the position of the first matching record. |
| `Codec.Index` | libtcd/api.py:250-255 | A packing failure is `index`'s failure. Otherwise `index` fails with ValueError exactly when no stored record matches the packed station. A success is the record number of a matching record. The database afterwards is the one packing left. |
| `Codec.Append` | libtcd/api.py:222-225 | `_append` as a definition, with no contract. `Codec.AppendExtends` states it. |
| `Codec.ResolveReference` | libtcd/api.py:532-539 | `pack_value` of the reference station as a definition, with no contract. `Codec.ResolveReferenceExtends` states it. |
| `Codec.UpdateKeeps` | libtcd/api.py:621 | `packed.update` leaves a key no pair names as it was. |
| `Codec.UpdateMeaning` | libtcd/api.py:621 | After `packed.update(pairs)` the keys are the old keys and the pairs' keys. A key takes the value of its last pair. A key no pair names keeps its old value. |
| `Codec.PackAllKeeps` | libtcd/api.py:620-621 | A column that no descriptor of the list emits keeps its value from the defaults. |
| `Codec.PackAllConcat` | libtcd/api.py:620-621 | Packing a concatenated descriptor list is packing the first part, then the second from the first's state and columns. |
| `Codec.PackAllAt` | libtcd/api.py:620-621 | When no later descriptor emits a column, the packed dict holds for it what the descriptor at `k` left there, packed from where the earlier descriptors left the database. |
| `Codec.PackedColumn` | libtcd/api.py:342-348 | A packed record's column for a plain descriptor holds the station's attribute, packed by the descriptor and converted to the column's type. A string-table index is the one found or added in the tables as the earlier descriptors left them. |
| `Codec.PackedColumnOf` | libtcd/api.py:342-348 | The same for a transform that reads no string table, packed against the tables before packing started. |
| `Codec.PackedName` | libtcd/api.py:544 | A packed record's name column is the station's `name`, stored into the column. |
| `Codec.PackedReference` | libtcd/api.py:532-539 | A packed subordinate record's `reference_station` column is -1 for no reference station. Otherwise it is a reference station, and the column holds the index `pack_value` resolved for it, wrapped to 32 bits. |
| `Codec.ReferencePacked` | libtcd/api.py:342-348 | The one pair `_reference_station.pack` yields: -1 for None, and otherwise the resolved index of a reference station. |
| `Codec.HeaderColumnsOnce` | libtcd/api.py:541-589 | Both lists start with the record-number and record-type descriptors, and no later descriptor emits those columns. |
| `Codec.ReferenceLeavesSubordinateColumns` | libtcd/api.py:568-577 | No reference-station descriptor emits `reference_station`, `flood_begins` or `ebb_begins`. |
| `Codec.PackedHeader` | libtcd/api.py:463-477 | A packed record has record type 1 for a reference station and 2 for a subordinate one. Its record number is 0, because the number is never packed. |
| `Codec.ReferenceKeepsDefaults` | libtcd/api.py:605-622 | A packed reference station keeps the non-zero defaults: `reference_station` -1 and both slack offsets NULLSLACKOFFSET. |
| `Codec.ExtendsTransitive` | libtcd/api.py:222-225 | "The database only grows by appends" composes. |
| `Codec.PackRecordExtends` | libtcd/api.py:613-622 | Packing only appends records, keeps position numbering, and adds nothing for a reference station. |
| `Codec.PackAllExtends` | libtcd/api.py:620-621 | The same for a descriptor list. |
| `Codec.PackDescriptorExtends` | libtcd/api.py:342-348 | The same for one descriptor. |
| `Codec.IndexExtends` | libtcd/api.py:250-262 | `index` only appends records (by packing). In a position-numbered database, a success is a valid position of a record that matches the packed station. |
| `Codec.AppendExtends` | libtcd/api.py:222-225 | `_append` only appends. A success adds exactly the packed station, numbered by its position. |
| `Codec.ResolveReferenceExtends` | libtcd/api.py:532-539 | Resolving a reference station only appends. In a position-numbered database, a success names a stored reference-station record whose number is that index. That record's name column holds the station's name, and it `records_match` the record the station packs to. |
| `Codec.ResolvedReference` | libtcd/api.py:532-539 | The same name and match facts for the record found by `index` or stored by `_append`. |
| `Codec.FoundReference` | libtcd/api.py:250-255 | The record `index` finds for a reference station is a reference record with the station's name that matches the packed station. |
| `Codec.AppendedReference` | libtcd/api.py:222-225 | The record `_append` stores for a reference station is a reference record with the station's name that matches the packed station. |
| `Codec.ToKwargs` | libtcd/api.py:601 | `dict(...)` of the yielded pairs has exactly their names as keys. |
| `Codec.ToKwargsLast` | libtcd/api.py:601 | Each key of `dict(...)` holds the value of its last pair. |
| `Codec.UnpackRecord` | libtcd/api.py:591-601 | A record type other than 1 or 2 is an AssertionError. A success is a station of the kind the record type names. Every failure is one of the unpacking errors: ValueError, AssertionError, TypeError, AttributeError or IndexError. |
| `Codec.UnpackAll` | libtcd/api.py:600-601 | Every failure of the descriptor loop is an unpacking error. |
| `Codec.UnpackDescriptor` | libtcd/api.py:334-340 | Each descriptor yields only its own attribute names. Its failures are the unpacking errors. A subordinate record whose reference index is neither -1 nor a stored record fails with IndexError, which `read_tide_record` raises (libtcd/_libtcd.py:221-224). |
| `Codec.UnpackAllOmits` | libtcd/api.py:600-601 | A name no descriptor of the list yields is missing from the pairs. |
| `Codec.UnpackAllConcat` | libtcd/api.py:600-601 | When a concatenated list unpacks, so does each part, and the pairs are the first part's followed by the second's. |
| `Codec.YieldedNameEmitted` | libtcd/api.py:541-589 | A keyword that names a column is yielded only by the descriptor that packs that column, the record number aside. |
| `Codec.LaterNeverYields` | libtcd/api.py:541-589 | No descriptor after a plain one yields its keyword, so `dict(...)` keeps the plain descriptor's value. |
| `Codec.UnpackedPairs` | libtcd/api.py:600-601 | The keyword arguments hold, for a plain descriptor's keyword, the value that descriptor unpacked from its column. |
| `Codec.UnpackedAttr` | libtcd/api.py:591-601 | A station read from a record has, for each plain descriptor, the attribute `_attr_descriptor.unpack` computes from the column: None for the null value, and otherwise `unpack_value`. |
| `Codec.UnpackOmitsRecordType` | libtcd/api.py:467-469 | Unpacking never yields `record_type`, so it is not passed to the station constructor. |
| `Codec.CoordinatesRoundTrip` | libtcd/api.py:479-497 | Coordinates through pack, storage and unpack: None comes back as None/None, and so does (0.0, 0.0). Other floats come back unchanged, and integers come back as floats. |
| `Codec.GetItem` | libtcd/api.py:198-205 | An index outside `-len ≤ i < len` is an IndexError. A valid non-negative index unpacks the record at that position, which can itself fail with IndexError when the record's reference station is not stored. |
| `Codec.NegativeIndex` | libtcd/api.py:199-200 | A negative index reads the record that many positions from the end. |
| `TideDb.Tcd.constructor` | libtcd/api.py:144-154 | A new database has no records, the given tables and the given constituent table. |
| `TideDb.Tcd.Len` | libtcd/api.py:188-189 | `len(tcd)` is the number of records. |
| `TideDb.Tcd.GetItem` | libtcd/api.py:198-205 | The same as `Codec.GetItem` on the current state. An index outside `-len ≤ i < len` is an IndexError. A valid index, negative ones counted from the end, unpacks the record at that position. |
| `TideDb.Tcd.PackDescriptor` | libtcd/api.py:342-348 | The result and the new state are those of `Codec.PackDescriptor` on the old state. |
| `TideDb.Tcd.PackTideRecord` | libtcd/api.py:613-622 | The loop gives the result and state of `Codec.PackRecord` on the old state, and the database only grows. |
| `TideDb.Tcd.FindRecord` | libtcd/api.py:252-255 | The search loop returns `FindMatch`, and a found position matches. |
| `TideDb.Tcd.Index` | libtcd/api.py:250-255 | The result and the new state are those of `Codec.Index`. |
| `TideDb.Tcd.Append` | libtcd/api.py:222-225 | The result and the new state are those of `Codec.Append`. |
| `TideDb.Tcd.ResolveReference` | libtcd/api.py:532-539 | The result and the new state are those of `Codec.ResolveReference`, and the database only grows. In a numbered database a success indexes a stored reference-station record that carries the station's name and matches the record the station packs to. |

## Left out

- Locking, `_current_database`, `open`, `close`, `__enter__` and `__exit__` are not modelled. They manage which native database is current and have no effect on the codec's values.
- The native calls behind `find`, `findall`, `_find_recs`, `_read_constituents` and `dump_tide_record` are left out. They only read what libtcd stores.
- `index`'s search order: libtcd's `search_station` order is not visible, so the model takes the first match in record order (`Codec.FindMatch`).
- `__setitem__`, `__delitem__` and the public `append` wrapper are not modelled. They are native update, delete and lock calls around the packing that is modelled.
- The native calls' `assert rv` failures (out of space, a bad file) are not modelled: `add_tide_record` is taken to succeed and to number the new record by its position (`Codec.Numbered`).
- `TideDb.Tcd.constructor`: takes the constituent table as given and does not model `create_tide_db` or its failure. `Constituents.PackConstituents` models the packing it calls.
- Latin-1 encoding is not modelled: strings are `seq<char>`. A character outside Latin-1, which Python would refuse when encoding, is not refused.
- Float columns store the real number given. Rounding to float32 is not modelled.
- Only keyword construction of stations is modelled. Positional arguments to the constructors are left out.
- `Codec.GetItem`: the index passed to libtcd's `read_tide_record` is not wrapped to int32. The model reads any index directly.
- Library-raised errors are approximated: `getattr` on a missing attribute is AttributeError, and a wrong type given to ctypes is TypeError. Their messages are not modelled.
- MRO gathering is precomputed. `Stations.AttributesOf` lists the `_attributes` of each class in MRO order rather than walking `__mro__`.
- Dates are the proleptic Gregorian calendar with years 1-9999, which is what `datetime.date` accepts. Its other checks and its `date` object are not modelled.
- `Records.StoreAllFirstRefusal`: "the first refused field" follows the order in which `_pack_tide_record` inserts keys into `packed`, which is the order `TIDE_RECORD(**packed)` sees them on Python 3.7 and later. On older Pythons the keyword order is arbitrary, so which refusal is reported is not determined.
- `Records.Build`: `ConversionOrder` is the packed dict's insertion order. The same caveat applies: only on Python 3.7 and later is it certain which refused field's error a failure reports.
- `__iter__` is not modelled. It reads records until the first IndexError, so a record whose reference station is not stored also ends the iteration early.

## Findings

| source | as written | input that shows it | evidently intended | confidence | as-written member | corrected member |
|---|---|---|---|---|---|---|
| libtcd/api.py:46-47 | `NodeFactors.__getitem__` subtracts `start_year` and indexes the list, so a year before the range becomes a negative Python index. | `NodeFactors(1970, three factors)[1969]` returns the 1972 factor, and `1973 in` it raises IndexError instead of giving False. | A `Mapping` defined on `start_year ≤ year < end_year` that raises KeyError for other years, so that `in` and `get` behave. | not executed | `Constituents.FactorAtAsWrittenOutOfRange` | `Constituents.FactorAt` |
