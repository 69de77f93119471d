/** The decision both instance registries make when a name is appended: keep the record when
    the same file is already registered under the name, refuse a different file under a
    taken name, and otherwise assign the entry. */
module Registry {
  import opened Wrappers
  import opened Records

  function DuplicateError(name: string, existingPath: string): string {
    "Service name " + name + " is already associated with file " + existingPath
      + ". Remove this service first if you still wish to use the name " + name + "."
  }

  /** `append`'s outcome on the record read from the store. `resolved` is the resolved form
      of `filePath`; `pathOf` reads the file path of an existing entry. Without `overwrite`
      a taken name is kept as is when `resolved == filePath` and refused otherwise; in every
      other case `config[name] = value`. */
  function Appended<V>(config: Rec<V>, name: string, filePath: string, resolved: string, overwrite: bool, value: V, pathOf: V -> string)
    : (r: Result<Rec<V>, string>)
    ensures !overwrite && name in Keys(config) && resolved == filePath ==> r == Success(config)
    ensures !overwrite && name in Keys(config) && resolved != filePath ==>
      r == Failure(DuplicateError(name, pathOf(Get(config, name).value)))
    ensures overwrite || name !in Keys(config) ==>
      && r.Success?
      && Get(r.value, name) == Some(value)
      && (forall k :: k != name ==> Get(r.value, k) == Get(config, k))
      && Keys(r.value) == (if name in Keys(config) then Keys(config) else Keys(config) + [name])
      && (WellFormed(config) ==> WellFormed(r.value))
  {
    var existing := Get(config, name);
    if !overwrite && existing.Some? then
      if resolved == filePath then Success(config)
      else Failure(DuplicateError(name, pathOf(existing.value)))
    else
      SetSemantics(config, name, value);
      Success(Set(config, name, value))
  }

  /** `remove`'s outcome on the record read from the store: the record without its first key
      equal to `name` ignoring case, and that key (`""` when none matched); every other
      entry keeps its place. */
  function Removed<V>(config: Rec<V>, name: string): (r: (Rec<V>, string))
    ensures FirstMatchIgnoringCase(config, name) == |config| ==> r == (config, "")
    ensures FirstMatchIgnoringCase(config, name) < |config| ==>
      var i := FirstMatchIgnoringCase(config, name);
      && r.1 == config[i].key && Text.EqualsIgnoreCase(r.1, name)
      && r.0 == config[..i] + config[i + 1..]
      && |r.0| == |config| - 1
      && Keys(r.0) == Keys(config)[..i] + Keys(config)[i + 1..]
  {
    var i := FirstMatchIgnoringCase(config, name);
    if i < |config| then
      var rest := config[..i] + config[i + 1..];
      assert forall j :: 0 <= j < |rest| ==> rest[j] == config[if j < i then j else j + 1];
      (rest, config[i].key)
    else (config, "")
  }
}
