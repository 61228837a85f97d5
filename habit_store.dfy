/**
 * The habit store of src/stores/habitStore.ts: the streak walk, the two
 * derived queries, and the actions that edit the habit list and write the
 * whole state through to storage. Ids, the colour pick and the clock are
 * parameters.
 */
module HabitStore {
  import opened Wrappers
  import opened Calendar
  import opened DateUtils
  import opened Types
  import opened StorageUtils
  import opened Lookup

  // ---------------------------------------------------------------- streak

  /** `completions[key]` is truthy: present and `true`. */
  predicate Done(c: map<string, bool>, key: string) {
    key in c && c[key]
  }

  /** The dates recorded as done. */
  function TrueKeys(c: map<string, bool>): set<string> {
    set key | key in c && c[key]
  }

  /** Only recorded dates can be done, so there are at most as many as there are keys. */
  lemma TrueKeysBound(c: map<string, bool>)
    ensures |TrueKeys(c)| <= |c|
  {
    SubsetSize(TrueKeys(c), c.Keys);
  }

  lemma {:induction false} SubsetSize<T>(a: set<T>, b: set<T>)
    requires a <= b
    ensures |a| <= |b|
  {
    if a != {} {
      var x :| x in a;
      SubsetSize(a - {x}, b - {x});
    }
  }

  /**
   * The key `formatDate` gives the day `i` days before `today`: not a second
   * concept but `FormatDate(DaysBefore(today, i))` written by recursion on
   * `i` (see `DayKeyIsFormatted`), the key `i - 1` days before yesterday,
   * which the streak proofs unfold one day at a time.
   */
  function DayKey(today: CivilDate, i: nat): string
    decreases i
  {
    if i == 0 then FormatDate(today) else DayKey(PrevDay(today), i - 1)
  }

  /** The key is the rendering of the date `i` days back. */
  lemma {:induction false} DayKeyIsFormatted(today: CivilDate, i: nat)
    ensures DayKey(today, i) == FormatDate(DaysBefore(today, i))
    decreases i
  {
    if i > 0 {
      DayKeyIsFormatted(PrevDay(today), i - 1);
    }
  }

  /** Different days back from today have different keys. */
  lemma DayKeyInjective(today: CivilDate, i: nat, j: nat)
    ensures DayKey(today, i) == DayKey(today, j) ==> i == j
  {
    DayKeyIsFormatted(today, i);
    DayKeyIsFormatted(today, j);
    if DayKey(today, i) == DayKey(today, j) {
      FormatDateInjective(DaysBefore(today, i), DaysBefore(today, j));
      DaysBeforeInjective(today, i, j);
    }
  }

  /** Where the walk starts counting: today, or yesterday when today is not done. */
  function StreakStart(c: map<string, bool>, today: CivilDate): nat {
    if Done(c, DayKey(today, 0)) then 0 else 1
  }

  /**
   * `r` is the streak of `calculateStreak`: from the start day backwards
   * `r` consecutive days are done, and the day before them is not.
   */
  ghost predicate IsStreak(c: map<string, bool>, today: CivilDate, r: nat) {
    var s := StreakStart(c, today);
    (forall j :: s <= j < s + r ==> Done(c, DayKey(today, j))) && !Done(c, DayKey(today, s + r))
  }

  /** A habit has one streak on a given day. */
  lemma StreakUnique(c: map<string, bool>, today: CivilDate, r1: nat, r2: nat)
    requires IsStreak(c, today, r1) && IsStreak(c, today, r2)
    ensures r1 == r2
  {
  }

  /** The keys of `n` consecutive days starting `a` days back. */
  ghost function KeyRange(today: CivilDate, a: nat, n: nat): set<string> {
    set j: nat | a <= j < a + n :: DayKey(today, j)
  }

  lemma {:induction false} KeyRangeSize(today: CivilDate, a: nat, n: nat)
    ensures |KeyRange(today, a, n)| == n
  {
    if n == 0 {
      assert KeyRange(today, a, 0) == {};
    } else {
      KeyRangeSize(today, a, n - 1);
      var last := DayKey(today, a + n - 1);
      forall j: nat | a <= j < a + n - 1
        ensures DayKey(today, j) != last
      {
        DayKeyInjective(today, j, a + n - 1);
      }
      assert KeyRange(today, a, n) == KeyRange(today, a, n - 1) + {last};
    }
  }

  /** A run of `n` done days holds `n` distinct done dates, so it is no longer than `TrueKeys`. */
  lemma RunBound(c: map<string, bool>, today: CivilDate, a: nat, n: nat)
    requires forall j :: a <= j < a + n ==> Done(c, DayKey(today, j))
    ensures n <= |TrueKeys(c)|
  {
    KeyRangeSize(today, a, n);
    SubsetSize(KeyRange(today, a, n), TrueKeys(c));
  }

  /** The reason the walk ends: a streak never exceeds the number of dates recorded as done. */
  lemma StreakBound(c: map<string, bool>, today: CivilDate, r: nat)
    requires IsStreak(c, today, r)
    ensures r <= |TrueKeys(c)|
  {
    RunBound(c, today, StreakStart(c, today), r);
  }

  /**
   * `calculateStreak`: walk back from today counting done days; an undone
   * today is skipped, any other undone day ends the walk. The loop has no
   * bound of its own; it ends because the count is bounded by `TrueKeys`.
   */
  method CalculateStreak(c: map<string, bool>, today: CivilDate) returns (streak: nat)
    ensures IsStreak(c, today, streak)
    ensures streak <= |TrueKeys(c)|
  {
    streak := 0;
    var i: nat := 0;
    while true
      invariant i == 0 ==> streak == 0
      invariant i >= 1 ==> StreakStart(c, today) + streak == i
      invariant forall j :: StreakStart(c, today) <= j < i ==> Done(c, DayKey(today, j))
      invariant streak <= |TrueKeys(c)|
      decreases |TrueKeys(c)| - streak, if i == 0 then 1 else 0
    {
      var dateString := DayKey(today, i);
      if dateString in c && c[dateString] {
        RunBound(c, today, StreakStart(c, today), streak + 1);
        streak := streak + 1;
      } else {
        if i == 0 {
          i := i + 1;
          continue;
        }
        break;
      }
      i := i + 1;
    }
  }

  /** Today and yesterday done, the day before that not: a streak of two. */
  lemma StreakOfTwo(c: map<string, bool>, today: CivilDate, r: nat)
    requires Done(c, DayKey(today, 0)) && Done(c, DayKey(today, 1)) && !Done(c, DayKey(today, 2))
    requires IsStreak(c, today, r)
    ensures r == 2
  {
    assert IsStreak(c, today, 2);
    StreakUnique(c, today, r, 2);
  }

  /** Only yesterday done: today is skipped and the streak is one. */
  lemma StreakFromYesterday(c: map<string, bool>, today: CivilDate, r: nat)
    requires c == map[DayKey(today, 1) := true]
    requires IsStreak(c, today, r)
    ensures r == 1
  {
    DayKeyInjective(today, 0, 1);
    DayKeyInjective(today, 2, 1);
    assert IsStreak(c, today, 1);
    StreakUnique(c, today, r, 1);
  }

  /** Today recorded as not done and nothing else: no streak. */
  lemma NoStreak(c: map<string, bool>, today: CivilDate, r: nat)
    requires c == map[DayKey(today, 0) := false]
    requires IsStreak(c, today, r)
    ensures r == 0
  {
    DayKeyInjective(today, 1, 0);
    assert IsStreak(c, today, 0);
    StreakUnique(c, today, r, 0);
  }

  // ---------------------------------------------------------------- habits

  function HabitId(h: Habit): string {
    h.id
  }

  /** `find`/`findIndex` by id: the index of the first habit with that id (see `FindBy`). */
  function FindHabit(hs: seq<Habit>, id: string): Option<nat> {
    FindBy(hs, HabitId, id)
  }

  /** No two habits share an id. */
  ghost predicate UniqueIds(hs: seq<Habit>) {
    forall i, j :: 0 <= i < j < |hs| ==> hs[i].id != hs[j].id
  }

  /** Deleting the habit with an id from a list of unique ids leaves no habit with it, and the rest unique. */
  lemma DeleteRemovesId(hs: seq<Habit>, id: string, k: nat)
    requires UniqueIds(hs) && FindHabit(hs, id) == Some(k)
    ensures FindHabit(RemoveAt(hs, k), id).None?
    ensures UniqueIds(RemoveAt(hs, k))
    ensures multiset(RemoveAt(hs, k)) + multiset{hs[k]} == multiset(hs)
  {
    var r := RemoveAt(hs, k);
    forall i | 0 <= i < |r|
      ensures r[i].id != id
    {
      if i >= k {
        assert r[i] == hs[i + 1];
      }
    }
    forall i, j | 0 <= i < j < |r|
      ensures r[i].id != r[j].id
    {
      var i' := if i < k then i else i + 1;
      var j' := if j < k then j else j + 1;
      assert r[i] == hs[i'] && r[j] == hs[j'];
    }
    RemoveAtMultiset(hs, k);
  }

  /** The colours a new habit is given. */
  const Palette: seq<string> := ["#3b82f6", "#10b981", "#f59e0b", "#ef4444", "#8b5cf6", "#ec4899"]

  /** `colors[pick] ?? '#3b82f6'`: the palette entry, falling back to the first colour. */
  function PickColor(pick: int): (color: string)
    ensures color in Palette
    ensures 0 <= pick < |Palette| ==> color == Palette[pick]
    ensures !(0 <= pick < |Palette|) ==> color == Palette[0]
  {
    if 0 <= pick < |Palette| then Palette[pick] else "#3b82f6"
  }

  /** The toggle of `toggleCompletion`: the date becomes the negation of its truthiness; no key is removed. */
  function ToggleAt(c: map<string, bool>, date: string): (r: map<string, bool>)
    ensures r.Keys == c.Keys + {date}
    ensures r[date] == !Done(c, date)
    ensures forall key :: key in c && key != date ==> r[key] == c[key]
  {
    c[date := !Done(c, date)]
  }

  /** Toggling twice restores a recorded date, and leaves an unrecorded one recorded as not done. */
  lemma ToggleTwice(c: map<string, bool>, date: string)
    ensures date in c ==> ToggleAt(ToggleAt(c, date), date) == c
    ensures date !in c ==> ToggleAt(ToggleAt(c, date), date) == c[date := false]
  {
  }

  /** The fields of `Partial<Habit>`: `None` for a key the caller leaves out. */
  datatype HabitUpdate = HabitUpdate(
    id: Option<string>,
    name: Option<string>,
    color: Option<string>,
    completions: Option<map<string, bool>>,
    notes: Option<string>,
    createdAt: Option<string>,
    updatedAt: Option<string>)

  /** `Object.assign(habit, updates, { updatedAt })`: the caller's keys first, then the clock. */
  function ApplyUpdate(h: Habit, u: HabitUpdate, now: string): (r: Habit)
    ensures r.updatedAt == now
    ensures (u.id.Some? ==> r.id == u.id.value) && (u.id.None? ==> r.id == h.id)
    ensures (u.name.Some? ==> r.name == u.name.value) && (u.name.None? ==> r.name == h.name)
    ensures (u.color.Some? ==> r.color == u.color.value) && (u.color.None? ==> r.color == h.color)
    ensures (u.completions.Some? ==> r.completions == u.completions.value) && (u.completions.None? ==> r.completions == h.completions)
    ensures (u.notes.Some? ==> r.notes == u.notes.value) && (u.notes.None? ==> r.notes == h.notes)
    ensures (u.createdAt.Some? ==> r.createdAt == u.createdAt.value) && (u.createdAt.None? ==> r.createdAt == h.createdAt)
  {
    Habit(
      u.id.GetOr(h.id),
      u.name.GetOr(h.name),
      u.color.GetOr(h.color),
      u.completions.GetOr(h.completions),
      u.notes.GetOr(h.notes),
      u.createdAt.GetOr(h.createdAt),
      now)
  }

  /** The clock is written last, so an `updatedAt` in the caller's keys never survives. */
  lemma UpdateOverridesUpdatedAt(h: Habit, u: HabitUpdate, now: string)
    ensures ApplyUpdate(h, u, now) == ApplyUpdate(h, u.(updatedAt := None), now)
  {
  }

  /** An update carrying no keys only refreshes the timestamp. */
  lemma EmptyUpdate(h: Habit, now: string)
    ensures ApplyUpdate(h, HabitUpdate(None, None, None, None, None, None, None), now) == h.(updatedAt := now)
  {
  }

  /** An update carrying every key replaces every field, `updatedAt` by the clock. */
  lemma FullUpdate(h: Habit, g: Habit, now: string)
    ensures ApplyUpdate(h, HabitUpdate(Some(g.id), Some(g.name), Some(g.color), Some(g.completions), Some(g.notes),
                                       Some(g.createdAt), Some(g.updatedAt)), now) == g.(updatedAt := now)
  {
  }

  /** `Math.round(completed / total * 100)` in integers, halves rounded up; 0 without entries. */
  function Percentage(completed: nat, total: nat): (p: int)
    ensures total == 0 ==> p == 0
    ensures total > 0 ==> 2 * total * p <= 200 * completed + total < 2 * total * (p + 1)
    ensures completed <= total ==> 0 <= p <= 100
    ensures 0 < completed == total ==> p == 100
  {
    if total > 0 then
      var p := (200 * completed + total) / (2 * total);
      PercentageBounds(completed, total, p);
      p
    else 0
  }

  lemma PercentageBounds(completed: nat, total: nat, p: int)
    requires total > 0 && p == (200 * completed + total) / (2 * total)
    ensures 2 * total * p <= 200 * completed + total < 2 * total * (p + 1)
    ensures completed <= total ==> 0 <= p <= 100
    ensures 0 < completed == total ==> p == 100
  {
    var d := 2 * total;
    var x := 200 * completed + total;
    DivBounds(x, d);
    assert d * (p + 1) == d * p + d;
    if completed <= total {
      if p > 100 {
        MulMono(d, 101, p);
        assert false;
      }
      if p < 0 {
        MulMono(d, p, -1);
        assert false;
      }
    }
    if completed == total && p < 100 {
      MulMono(d, p + 1, 100);
      assert false;
    }
  }

  lemma DivBounds(x: int, d: int)
    requires d > 0
    ensures d * (x / d) <= x < d * (x / d) + d
  {
  }

  lemma MulMono(d: int, a: int, b: int)
    requires d > 0 && a <= b
    ensures d * a <= d * b
  {
    assert d * b - d * a == d * (b - a);
  }

  /** The date keys of days 1..n of month `m` of year `y`. */
  ghost function MonthKeys(y: int, m: int, n: nat): set<string>
    requires 0 <= m < 12 && n <= DaysInMonth(y, m)
    decreases n
  {
    if n == 0 then {} else MonthKeys(y, m, n - 1) + {FormatDate(Date(y, m, n))}
  }

  /** A date's key is among the keys of days 1..n of a month exactly when the date is one of those days. */
  lemma {:induction false} InMonthKeysUpTo(e: CivilDate, y: int, m: int, n: nat)
    requires 0 <= m < 12 && n <= DaysInMonth(y, m)
    ensures FormatDate(e) in MonthKeys(y, m, n) <==> e.year == y && e.month == m && e.day <= n
    decreases n
  {
    if n > 0 {
      InMonthKeysUpTo(e, y, m, n - 1);
      var d: CivilDate := Date(y, m, n);
      if FormatDate(e) == FormatDate(d) {
        FormatDateInjective(e, d);
      }
      assert FormatDate(e) in MonthKeys(y, m, n) <==> FormatDate(e) in MonthKeys(y, m, n - 1) || e == d;
    }
  }

  /** A date's key is among a month's keys exactly when the date lies in that month. */
  lemma InMonthKeys(e: CivilDate, y: int, m: int)
    requires 0 <= m < 12
    ensures FormatDate(e) in MonthKeys(y, m, DaysInMonth(y, m)) <==> e.year == y && e.month == m
  {
    InMonthKeysUpTo(e, y, m, DaysInMonth(y, m));
  }

  /** Copying one more present key keeps `r` the restriction of `c` to the keys looked at. */
  lemma RestrictStep<K, V>(r: map<K, V>, c: map<K, V>, seen: set<K>, key: K)
    requires r.Keys == c.Keys * seen && forall k :: k in r ==> r[k] == c[k]
    ensures var r' := if key in c then r[key := c[key]] else r;
      r'.Keys == c.Keys * (seen + {key}) && forall k :: k in r' ==> r'[k] == c[k]
  {
  }

  /** The habit store: the habit list, the settings, and the storage it writes through to. */
  class HabitStore {
    var habits: seq<Habit>
    var settings: Settings
    const storage: LocalStorage

    /** A fresh store: no habits, the dark theme, Monday first. */
    constructor(storage: LocalStorage)
      ensures habits == [] && settings == Settings(Dark, 1) && this.storage == storage
    {
      habits := [];
      settings := Settings(Dark, 1);
      this.storage := storage;
    }

    /** The state `saveToStorage` writes. */
    function Snapshot(): StorageData
      reads this
    {
      StorageData(habits, settings)
    }

    /** `getHabitById`: the first habit with that id. */
    function GetHabitById(id: string): (r: Option<Habit>)
      reads this
      ensures r.None? <==> forall i :: 0 <= i < |habits| ==> habits[i].id != id
      ensures r.Some? ==> (r.value.id == id &&
        exists k :: 0 <= k < |habits| && habits[k] == r.value && forall i :: 0 <= i < k ==> habits[i].id != id)
    {
      match FindHabit(habits, id)
      case None => None
      case Some(k) => Some(habits[k])
    }

    /** `getHabitCompletionsByMonth`: the habit's entries for the days of the month `new Date(year, month, 1)` falls in. */
    method GetHabitCompletionsByMonth(habitId: string, year: int, month: int) returns (r: map<string, bool>)
      ensures FindHabit(habits, habitId).None? ==> r == map[]
      ensures FindHabit(habits, habitId).Some? ==>
        var c := habits[FindHabit(habits, habitId).value].completions;
        var first := MonthStart(year, month);
        && r.Keys == c.Keys * MonthKeys(first.year, first.month, DaysInMonth(first.year, first.month))
        && forall key :: key in r ==> r[key] == c[key]
    {
      var k := FindHabit(habits, habitId);
      if k.None? {
        return map[];
      }
      var c := habits[k.value].completions;
      var first := MonthStart(year, month);
      var lastDay := DaysInMonth(first.year, first.month);
      r := map[];
      var d := 1;
      while d <= lastDay
        invariant 1 <= d <= lastDay + 1
        invariant r.Keys == c.Keys * MonthKeys(first.year, first.month, d - 1)
        invariant forall key :: key in r ==> r[key] == c[key]
      {
        var dateString := FormatDate(Date(first.year, first.month, d));
        RestrictStep(r, c, MonthKeys(first.year, first.month, d - 1), dateString);
        if dateString in c {
          r := r[dateString := c[dateString]];
        }
        d := d + 1;
      }
    }

    /**
     * `getHabitStats`: zeros for an unknown id; otherwise the number of
     * entries, the number of done dates, the streak on `today` and the
     * rounded percentage.
     */
    method GetHabitStats(habitId: string, today: CivilDate) returns (s: HabitStats)
      ensures FindHabit(habits, habitId).None? ==> s == HabitStats(0, 0, 0, 0)
      ensures FindHabit(habits, habitId).Some? ==>
        var c := habits[FindHabit(habits, habitId).value].completions;
        && s.total == |c| && s.completed == |TrueKeys(c)|
        && s.streak >= 0 && IsStreak(c, today, s.streak)
        && s.percentage == Percentage(s.completed, s.total)
      ensures 0 <= s.completed <= s.total
      ensures 0 <= s.percentage <= 100
      ensures s.total == 0 ==> s.percentage == 0
      ensures 0 < s.completed == s.total ==> s.percentage == 100
    {
      var k := FindHabit(habits, habitId);
      if k.None? {
        return HabitStats(0, 0, 0, 0);
      }
      var c := habits[k.value].completions;
      var total := |c|;
      var completed := |TrueKeys(c)|;
      TrueKeysBound(c);
      var streak := CalculateStreak(c, today);
      var percentage := Percentage(completed, total);
      s := HabitStats(total, completed, streak, percentage);
    }

    /** `loadFromStorage`: take over what `loadData` returns; nothing is written. */
    method LoadFromStorage()
      modifies this`habits, this`settings
      ensures Snapshot() == storage.LoadData()
      ensures storage.readDenied ==> habits == [] && settings == DefaultSettings
    {
      var data := storage.LoadData();
      habits := data.habits;
      settings := data.settings;
    }

    /** `saveToStorage`: the whole state is written through `saveData`. */
    method SaveToStorage()
      modifies storage`items
      ensures storage.items == if storage.writeDenied then old(storage.items)
                               else old(storage.items)[StorageKey := Serialize(Snapshot())]
      ensures !storage.writeDenied && !storage.readDenied ==> storage.LoadData() == Snapshot()
    {
      storage.SaveData(Snapshot());
    }

    /** `addHabit`: appends the new habit, saves, and returns it. */
    method AddHabit(name: string, id: string, pick: int, now: string) returns (h: Habit)
      modifies this`habits, storage`items
      ensures h == Habit(id, name, PickColor(pick), map[], "", now, now)
      ensures h.color in Palette
      ensures habits == old(habits) + [h] && settings == old(settings)
      ensures UniqueIds(old(habits)) && FindHabit(old(habits), id).None? ==> UniqueIds(habits)
      ensures storage.items == if storage.writeDenied then old(storage.items)
                               else old(storage.items)[StorageKey := Serialize(Snapshot())]
      ensures !storage.writeDenied && !storage.readDenied ==> storage.LoadData() == Snapshot()
    {
      var randomColor := PickColor(pick);
      h := Habit(id, name, randomColor, map[], "", now, now);
      habits := habits + [h];
      SaveToStorage();
    }

    /** `deleteHabit`: removes the first habit with the id and saves; with no such habit nothing happens. */
    method DeleteHabit(id: string)
      modifies this`habits, storage`items
      ensures settings == old(settings)
      ensures FindHabit(old(habits), id).None? ==> habits == old(habits) && storage.items == old(storage.items)
      ensures FindHabit(old(habits), id).Some? ==>
        && habits == RemoveAt(old(habits), FindHabit(old(habits), id).value)
        && storage.items == if storage.writeDenied then old(storage.items)
                            else old(storage.items)[StorageKey := Serialize(Snapshot())]
      ensures FindHabit(old(habits), id).Some? && !storage.writeDenied && !storage.readDenied ==> storage.LoadData() == Snapshot()
    {
      var index := FindHabit(habits, id);
      if index.Some? {
        habits := RemoveAt(habits, index.value);
        SaveToStorage();
      }
    }

    /** `updateHabit`: merges the caller's keys into the first habit with the id, stamps it and saves. */
    method UpdateHabit(id: string, updates: HabitUpdate, now: string)
      modifies this`habits, storage`items
      ensures settings == old(settings)
      ensures FindHabit(old(habits), id).None? ==> habits == old(habits) && storage.items == old(storage.items)
      ensures FindHabit(old(habits), id).Some? ==>
        var k := FindHabit(old(habits), id).value;
        && habits == old(habits)[k := ApplyUpdate(old(habits)[k], updates, now)]
        && storage.items == if storage.writeDenied then old(storage.items)
                            else old(storage.items)[StorageKey := Serialize(Snapshot())]
      ensures FindHabit(old(habits), id).Some? && !storage.writeDenied && !storage.readDenied ==> storage.LoadData() == Snapshot()
    {
      var k := FindHabit(habits, id);
      if k.Some? {
        habits := habits[k.value := ApplyUpdate(habits[k.value], updates, now)];
        SaveToStorage();
      }
    }

    /** `toggleCompletion`: flips the date on the first habit with the id, stamps it and saves. */
    method ToggleCompletion(habitId: string, date: string, now: string)
      modifies this`habits, storage`items
      ensures settings == old(settings)
      ensures FindHabit(old(habits), habitId).None? ==> habits == old(habits) && storage.items == old(storage.items)
      ensures FindHabit(old(habits), habitId).Some? ==>
        var k := FindHabit(old(habits), habitId).value;
        var h := old(habits)[k];
        && habits == old(habits)[k := h.(completions := ToggleAt(h.completions, date), updatedAt := now)]
        && storage.items == if storage.writeDenied then old(storage.items)
                            else old(storage.items)[StorageKey := Serialize(Snapshot())]
      ensures FindHabit(old(habits), habitId).Some? && !storage.writeDenied && !storage.readDenied ==> storage.LoadData() == Snapshot()
    {
      var k := FindHabit(habits, habitId);
      if k.Some? {
        var habit := habits[k.value];
        habits := habits[k.value := habit.(completions := ToggleAt(habit.completions, date), updatedAt := now)];
        SaveToStorage();
      }
    }

    /** `setNotes`: replaces the notes of the first habit with the id, stamps it and saves. */
    method SetNotes(habitId: string, notes: string, now: string)
      modifies this`habits, storage`items
      ensures settings == old(settings)
      ensures FindHabit(old(habits), habitId).None? ==> habits == old(habits) && storage.items == old(storage.items)
      ensures FindHabit(old(habits), habitId).Some? ==>
        var k := FindHabit(old(habits), habitId).value;
        && habits == old(habits)[k := old(habits)[k].(notes := notes, updatedAt := now)]
        && storage.items == if storage.writeDenied then old(storage.items)
                            else old(storage.items)[StorageKey := Serialize(Snapshot())]
      ensures FindHabit(old(habits), habitId).Some? && !storage.writeDenied && !storage.readDenied ==> storage.LoadData() == Snapshot()
    {
      var k := FindHabit(habits, habitId);
      if k.Some? {
        habits := habits[k.value := habits[k.value].(notes := notes, updatedAt := now)];
        SaveToStorage();
      }
    }

    /** `setHabits`: replaces the whole list and saves. */
    method SetHabits(newHabits: seq<Habit>)
      modifies this`habits, storage`items
      ensures habits == newHabits && settings == old(settings)
      ensures storage.items == if storage.writeDenied then old(storage.items)
                               else old(storage.items)[StorageKey := Serialize(Snapshot())]
      ensures !storage.writeDenied && !storage.readDenied ==> storage.LoadData() == Snapshot()
    {
      habits := newHabits;
      SaveToStorage();
    }
  }
}
