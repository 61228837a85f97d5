/** The records of src/utils/types.ts. */
module Types {

  /**
   * One tracked habit. `completions` maps a `YYYY-MM-DD` string to its
   * recorded flag; an absent key means "not recorded". The timestamps are
   * ISO-8601 strings the model never looks inside.
   */
  datatype Habit = Habit(
    id: string,
    name: string,
    color: string,
    completions: map<string, bool>,
    notes: string,
    createdAt: string,
    updatedAt: string)

  /** Derived statistics of one habit. */
  datatype HabitStats = HabitStats(total: int, completed: int, streak: int, percentage: int)
}
