/**
 * The persistence layer of src/utils/storageUtils.ts: the stored record, its
 * defaults, the default-merging load, the save, and the validation of an
 * imported file. localStorage is a class whose item map the save replaces;
 * a stored text is pictured by what `JSON.parse` makes of it.
 */
module StorageUtils {
  import opened Wrappers
  import opened Types

  /** The one localStorage key the application uses. */
  const StorageKey: string := "habit-tracker-data"

  datatype Theme = Dark | Light

  /** `0 | 1`: 0 is Sunday, 1 is Monday. */
  type FirstDay = d: int | 0 <= d <= 1

  datatype Settings = Settings(theme: Theme, firstDayOfWeek: FirstDay)

  datatype StorageData = StorageData(habits: seq<Habit>, settings: Settings)

  const DefaultSettings: Settings := Settings(Dark, 1)

  /** No habits, the dark theme, weeks starting on Monday. */
  const DefaultData: StorageData := StorageData([], DefaultSettings)

  /** The default record as declared: no habits, the dark theme, Monday first; it is what loading nothing gives. */
  lemma DefaultDataAsDeclared()
    ensures DefaultData.habits == [] && DefaultData.settings.theme == Dark && DefaultData.settings.firstDayOfWeek == 1
    ensures LoadFrom(None) == DefaultData && LoadFrom(Some(EmptyText)) == DefaultData
  {
  }

  /** The keys a parsed `settings` object carries; an absent key is `None`. */
  datatype PartialSettings = PartialSettings(theme: Option<Theme>, firstDayOfWeek: Option<FirstDay>)

  /**
   * A parsed top-level object. `habits` is `None` when the key is absent;
   * `settings` is `None` when it is absent, `undefined` or `null`, all of
   * which spread to nothing.
   */
  datatype ParsedData = ParsedData(habits: Option<seq<Habit>>, settings: Option<PartialSettings>)

  /**
   * A stored item as `loadData` sees it: the empty string, text `JSON.parse`
   * rejects, `null`, a number or boolean, or an object.
   */
  datatype StoredText = EmptyText | Malformed | NullJson | ScalarJson | ObjectJson(data: ParsedData)

  /** `{ ...base, ...p }` one level deep: every key `p` carries overrides, every other key keeps `base`'s value. */
  function MergeSettings(base: Settings, p: Option<PartialSettings>): (r: Settings)
    ensures p.None? ==> r == base
    ensures p.Some? && p.value.theme.Some? ==> r.theme == p.value.theme.value
    ensures p.Some? && p.value.theme.None? ==> r.theme == base.theme
    ensures p.Some? && p.value.firstDayOfWeek.Some? ==> r.firstDayOfWeek == p.value.firstDayOfWeek.value
    ensures p.Some? && p.value.firstDayOfWeek.None? ==> r.firstDayOfWeek == base.firstDayOfWeek
  {
    match p
    case None => base
    case Some(s) => Settings(s.theme.GetOr(base.theme), s.firstDayOfWeek.GetOr(base.firstDayOfWeek))
  }


  /** The keys of a complete settings record. */
  function AllKeys(s: Settings): (p: PartialSettings)
    ensures p.theme.Some? && p.firstDayOfWeek.Some?
  {
    PartialSettings(Some(s.theme), Some(s.firstDayOfWeek))
  }

  /**
   * `loadData` given what `getItem` returned: the defaults when nothing or
   * the empty string is stored, when parsing fails and when reading
   * `parsed.settings` throws on `null`; otherwise the defaults overridden by
   * each top-level key present, `settings` merged one level deep.
   */
  function LoadFrom(item: Option<StoredText>): (r: StorageData)
    ensures item.None? || !item.value.ObjectJson? ==> r == DefaultData
    ensures item.Some? && item.value.ObjectJson? ==>
      var p := item.value.data;
      && (p.habits.Some? ==> r.habits == p.habits.value)
      && (p.habits.None? ==> r.habits == [])
      && r.settings == MergeSettings(DefaultSettings, p.settings)
  {
    match item
    case None => DefaultData
    case Some(EmptyText) => DefaultData
    case Some(Malformed) => DefaultData
    case Some(NullJson) => DefaultData
    case Some(ScalarJson) => DefaultData
    case Some(ObjectJson(p)) => StorageData(p.habits.GetOr(DefaultData.habits), MergeSettings(DefaultSettings, p.settings))
  }

  /** A loaded object without `firstDayOfWeek` in its settings takes the default Monday start. */
  lemma LoadKeepsDefaultFirstDay(habits: Option<seq<Habit>>, theme: Option<Theme>)
    ensures LoadFrom(Some(ObjectJson(ParsedData(habits, Some(PartialSettings(theme, None)))))).settings.firstDayOfWeek == 1
  {
  }

  /** `JSON.stringify(data)`: every key present; loading it back yields `data` again. */
  function Serialize(d: StorageData): (t: StoredText)
    ensures t.ObjectJson?
    ensures LoadFrom(Some(t)) == d
  {
    ObjectJson(ParsedData(Some(d.habits), Some(AllKeys(d.settings))))
  }

  /** The browser's localStorage, as far as this application uses it. */
  class LocalStorage {
    var items: map<string, StoredText>
    /** Whether `setItem` throws: the quota is exceeded, or storage is disabled. */
    var writeDenied: bool
    /** Whether `getItem` throws: access to storage is denied, or storage is disabled. */
    var readDenied: bool

    constructor(items: map<string, StoredText>, writeDenied: bool, readDenied: bool)
      ensures this.items == items && this.writeDenied == writeDenied && this.readDenied == readDenied
    {
      this.items := items;
      this.writeDenied := writeDenied;
      this.readDenied := readDenied;
    }

    /** `getItem` when it does not throw: `null` for an absent key. */
    function GetItem(key: string): (r: Option<StoredText>)
      reads this
      ensures r.Some? <==> key in items
      ensures r.Some? ==> r.value == items[key]
    {
      if key in items then Some(items[key]) else None
    }

    /**
     * `loadData`: a throwing `getItem` is caught and gives the defaults;
     * otherwise the stored item is read as `LoadFrom` says.
     */
    function LoadData(): (r: StorageData)
      reads this
      ensures readDenied ==> r == DefaultData
      ensures !readDenied && StorageKey !in items ==> r == DefaultData
      ensures !readDenied && StorageKey in items ==> r == LoadFrom(Some(items[StorageKey]))
    {
      if readDenied then DefaultData else LoadFrom(GetItem(StorageKey))
    }

    /**
     * `saveData`: stores the record under the key; a throwing `setItem` is
     * swallowed and changes nothing. Where reading also works, the record
     * loads back.
     */
    method SaveData(d: StorageData)
      modifies this`items
      ensures items == if writeDenied then old(items) else old(items)[StorageKey := Serialize(d)]
      ensures !writeDenied && !readDenied ==> LoadData() == d
    {
      if !writeDenied {
        items := items[StorageKey := Serialize(d)];
      }
    }

    /**
     * The body of `importData`'s `onload` handler and its `onerror`: validate,
     * store the accepted record and resolve with it, or reject and store
     * nothing. A swallowed failure of the save still resolves.
     */
    method ImportData(file: ImportFile) returns (r: Result<StorageData, ImportError>)
      modifies this`items
      ensures r == ImportResult(file)
      ensures items == if r.Success? && !writeDenied then old(items)[StorageKey := Serialize(r.value)] else old(items)
      ensures r.Success? && !writeDenied && !readDenied ==> LoadData() == r.value
    {
      r := ImportResult(file);
      if r.Success? {
        SaveData(r.value);
      }
    }
  }

  // ---------------------------------------------------------------- import

  /**
   * One element of an imported `habits` array: `null` (reading `.id` throws)
   * or a habit record, whose empty `id` or `name` stands for a missing or
   * falsy one.
   */
  datatype ImportedItem = NullItem | HabitItem(h: Habit)

  /** The `habits` key: missing or falsy, truthy but not an array, or an array. */
  datatype HabitsField = HabitsMissing | HabitsNotArray | HabitsArray(items: seq<ImportedItem>)

  datatype ImportedData = ImportedData(habits: HabitsField, settings: Option<PartialSettings>)

  /**
   * An imported file as the handler meets it: the reader failed, the text is
   * not JSON, it is `null`, or it is a value whose keys are read (a number or
   * a string root reads as an object without `habits`).
   */
  datatype ImportFile = ReadFailed | NotJson | NullRoot | Root(data: ImportedData)

  /** Why a promise from `importData` rejects. */
  datatype ImportError =
    | ReadError            // "Error reading file"
    | ParseError           // JSON.parse throws
    | NullAccess           // a property read on null throws a TypeError
    | HabitsArrayRequired  // "Invalid data format: habits array is required"
    | IdAndNameRequired    // "Invalid habit format: id and name are required"

  /** An element the loop over `data.habits` lets through. */
  predicate Accepted(item: ImportedItem) {
    item.HabitItem? && item.h.id != "" && item.h.name != ""
  }

  /** The exception a rejected element raises. */
  function ItemError(item: ImportedItem): ImportError {
    if item.NullItem? then NullAccess else IdAndNameRequired
  }

  /**
   * The validation loop over `data.habits`: every element accepted gives
   * their habits; otherwise the first rejected element decides the error.
   */
  function ValidateHabits(items: seq<ImportedItem>): (r: Result<seq<Habit>, ImportError>)
    ensures r.Success? <==> forall i :: 0 <= i < |items| ==> Accepted(items[i])
    ensures r.Success? ==> |r.value| == |items| && forall i :: 0 <= i < |items| ==> items[i] == HabitItem(r.value[i])
    ensures r.Failure? ==> exists k :: (0 <= k < |items| && !Accepted(items[k]) && r.error == ItemError(items[k]) &&
      forall i :: 0 <= i < k ==> Accepted(items[i]))
  {
    if items == [] then Success([])
    else if !Accepted(items[0]) then Failure(ItemError(items[0]))
    else match ValidateHabits(items[1..])
      case Failure(e) =>
        ghost var k' :| 0 <= k' < |items[1..]| && !Accepted(items[1..][k']) && e == ItemError(items[1..][k']) &&
          forall i :: 0 <= i < k' ==> Accepted(items[1..][i]);
        assert !Accepted(items[k' + 1]);
        Failure(e)
      case Success(hs) => Success([items[0].h] + hs)
  }

  /**
   * What the promise of `importData` settles with: rejected for a file that
   * cannot be read or parsed, a `null` root, a missing, falsy or non-array
   * `habits`, or a rejected element; otherwise resolved with the same habits
   * and the default settings overridden by the imported ones.
   */
  function ImportResult(file: ImportFile): (r: Result<StorageData, ImportError>)
    ensures file == ReadFailed ==> r == Failure(ReadError)
    ensures file == NotJson ==> r == Failure(ParseError)
    ensures file == NullRoot ==> r == Failure(NullAccess)
    ensures file.Root? && !file.data.habits.HabitsArray? ==> r == Failure(HabitsArrayRequired)
    ensures file.Root? && file.data.habits.HabitsArray? && ValidateHabits(file.data.habits.items).Failure? ==>
      r == Failure(ValidateHabits(file.data.habits.items).error)
    ensures r.Success? <==> (file.Root? && file.data.habits.HabitsArray? &&
      forall i :: 0 <= i < |file.data.habits.items| ==> Accepted(file.data.habits.items[i]))
    ensures r.Success? ==>
      && |r.value.habits| == |file.data.habits.items|
      && (forall i :: 0 <= i < |r.value.habits| ==> file.data.habits.items[i] == HabitItem(r.value.habits[i]))
      && r.value.settings == MergeSettings(DefaultSettings, file.data.settings)
  {
    match file
    case ReadFailed => Failure(ReadError)
    case NotJson => Failure(ParseError)
    case NullRoot => Failure(NullAccess)
    case Root(data) =>
      match data.habits
      case HabitsMissing => Failure(HabitsArrayRequired)
      case HabitsNotArray => Failure(HabitsArrayRequired)
      case HabitsArray(items) =>
        match ValidateHabits(items)
        case Failure(e) => Failure(e)
        case Success(hs) => Success(StorageData(hs, MergeSettings(DefaultSettings, data.settings)))
  }
}
