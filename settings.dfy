/** The configuration constants the scheduler reads (settings.js). */
module Settings {

  /** `SETTINGS.newTaskValue`: the value a new task gets, by group or type. */
  const NewTaskValue: map<string, int> := map[
    "faculty" := 340,
    "postdoc" := 100,
    "phdstudent" := 100,
    "amanuens" := 80,
    "course" := 80
  ]

  /** `SETTINGS.valueToWidth.minValue` and `.snapDelta`. */
  const MinValue: int := 10
  const SnapDelta: int := 10
}
