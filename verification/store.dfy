/** The reference store behind `add`, `remove` and `list`: a record from service name to the
    file, table, endpoint and region it was registered with, kept in a file. The file is a
    field (`None` until first written) and `path.resolve` is the `resolve` function. */
module Store {
  import opened Wrappers
  import opened Text
  import opened Records
  import opened Registry
  import Instances

  datatype ReferenceDetail = ReferenceDetail(filePath: string, endpoint: Option<string>, region: Option<string>, table: Option<string>)

  function PathOf(d: ReferenceDetail): string {
    d.filePath
  }

  class ReferenceStore {
    /** The file's content; `None` while there is no file. */
    var file: Option<Rec<ReferenceDetail>>
    /** How `RemoteFile(filePath).path()` resolves a path. */
    const resolve: string -> string

    /** The stored record is a JSON object: each name once. */
    ghost predicate Valid()
      reads this
    {
      file.Some? ==> WellFormed(file.value)
    }

    constructor(resolve: string -> string, file: Option<Rec<ReferenceDetail>>)
      requires file.Some? ==> WellFormed(file.value)
      ensures this.resolve == resolve && this.file == file && Valid()
    {
      this.resolve := resolve;
      this.file := file;
    }

    /** `get()`: a missing file is written as `{}` and `{}` returned; otherwise the stored record. */
    method Get() returns (r: Rec<ReferenceDetail>)
      requires Valid()
      modifies this`file
      ensures r == old(file).GetOr([]) && file == Some(r) && Valid()
    {
      if file.None? {
        file := Some([]);
        return [];
      }
      return file.value;
    }

    /** `append(filePath, name, options)`: the decision of `Appended` on the record read by
        `get()`; a kept or refused name writes nothing more, an assignment is written back. */
    method Append(filePath: string, name: string, overwrite: bool, endpoint: Option<string>, region: Option<string>, table: Option<string>)
      returns (r: Result<Rec<ReferenceDetail>, string>)
      requires Valid()
      modifies this`file
      ensures var config := old(file).GetOr([]);
        r == Appended(config, name, filePath, resolve(filePath), overwrite, ReferenceDetail(resolve(filePath), endpoint, region, table), PathOf)
      ensures file == Some(if r.Success? then r.value else old(file).GetOr([]))
      ensures r.Failure? ==> file == old(file)
      ensures Valid()
    {
      var config := Get();
      var existing := Records.Get(config, name);
      var resolved := resolve(filePath);
      if !overwrite && existing.Some? {
        if resolved == filePath {
          return Success(config);
        } else {
          return Failure(DuplicateError(name, existing.value.filePath));
        }
      }
      SetSemantics(config, name, ReferenceDetail(resolved, endpoint, region, table));
      config := Set(config, name, ReferenceDetail(resolved, endpoint, region, table));
      file := Some(config);
      return Success(config);
    }

    /** `remove(name)`: deletes the first name equal to `name` ignoring case, writes the
        record back in either case, and returns the name as it was stored (`""` for none). */
    method Remove(name: string) returns (removed: string)
      requires Valid()
      modifies this`file
      ensures file == Some(Removed(old(file).GetOr([]), name).0) && removed == Removed(old(file).GetOr([]), name).1
      ensures Valid()
    {
      var config := Get();
      var remaining;
      remaining, removed := DeleteFirstIgnoringCase(config, name);
      if FirstMatchIgnoringCase(config, name) < |config| {
        DeleteFirstKeepsOthers(config, name);
      }
      file := Some(remaining);
    }
  }

  /** `typeof name === "string" && name.length > 0 ? name : instance.name`. */
  function ServiceName(customLabel: Option<string>, instanceName: string): (r: string)
    ensures customLabel.Some? && customLabel.value != "" ==> r == customLabel.value
    ensures customLabel.None? || customLabel.value == "" ==> r == instanceName
  {
    if customLabel.Some? && |customLabel.value| > 0 then customLabel.value else instanceName
  }

  /** An absent or empty cell of `list` shows as `na`; any other cell shows its own value. */
  function OrNa(v: Option<string>): (r: string)
    ensures r == "na" <==> v.None? || v.value == "" || v.value == "na"
    ensures v.Some? && v.value != "" ==> r == v.value
  {
    if v.Some? && v.value != "" then v.value else "na"
  }

  /** One `list` row: name, location, table, endpoint, region. */
  function Row(e: Entry<ReferenceDetail>): seq<string> {
    [e.key, e.value.filePath, OrNa(e.value.table), OrNa(e.value.endpoint), OrNa(e.value.region)]
  }

  class ReferenceConfiguration {
    const store: ReferenceStore

    constructor(store: ReferenceStore)
      ensures this.store == store
    {
      this.store := store;
    }

    /** `add(filePath, instance, label, options)`: registers under the label when it is a
        non-empty string and under the instance's name otherwise, and returns that name. */
    method Add(filePath: string, instance: Instances.ElectroInstance, customLabel: Option<string>, overwrite: bool,
               endpoint: Option<string>, region: Option<string>, table: Option<string>)
      returns (r: Result<string, string>)
      requires store.Valid()
      modifies store`file
      ensures var appended := Appended(old(store.file).GetOr([]), ServiceName(customLabel, instance.name), filePath,
        store.resolve(filePath), overwrite, ReferenceDetail(store.resolve(filePath), endpoint, region, table), PathOf);
        && (r.Failure? <==> appended.Failure?)
        && (r.Failure? ==> r.error == appended.error)
        && (r.Success? ==> r.value == ServiceName(customLabel, instance.name) && store.file == Some(appended.value))
      ensures r.Failure? ==> store.file == old(store.file)
      ensures store.Valid()
    {
      var serviceName := if customLabel.Some? && |customLabel.value| > 0 then customLabel.value else instance.name;
      var _ :- store.Append(filePath, serviceName, overwrite, endpoint, region, table);
      return Success(serviceName);
    }

    /** `remove(name)`: the store's removal. */
    method Remove(name: string) returns (removed: string)
      requires store.Valid()
      modifies store`file
      ensures store.file == Some(Removed(old(store.file).GetOr([]), name).0)
      ensures removed == Removed(old(store.file).GetOr([]), name).1
      ensures store.Valid()
    {
      removed := store.Remove(name);
    }

    /** `list()`: one row per service, in key order. */
    method List() returns (rows: seq<seq<string>>)
      requires store.Valid()
      modifies store`file
      ensures var services := old(store.file).GetOr([]);
        && |rows| == |services|
        && forall i :: 0 <= i < |rows| ==> rows[i] == Row(services[i])
      ensures store.file == Some(old(store.file).GetOr([]))
    {
      var services := store.Get();
      rows := [];
      for i := 0 to |services|
        invariant |rows| == i
        invariant forall k :: 0 <= k < i ==> rows[k] == Row(services[k])
      {
        var detail := Records.Get(services, services[i].key).value;
        assert detail == services[i].value by {
          IndexOfIs(services, services[i].key, i);
        }
        rows := rows + [[services[i].key, detail.filePath, OrNa(detail.table), OrNa(detail.endpoint), OrNa(detail.region)]];
      }
    }
  }

  /** The first column of `list` is `Object.keys` of the store, and every row has the five
      columns of the table head. */
  lemma ListColumns(services: Rec<ReferenceDetail>)
    ensures forall i :: 0 <= i < |services| ==> |Row(services[i])| == 5 && Row(services[i])[0] == Keys(services)[i]
    ensures forall i :: 0 <= i < |services| ==> (Row(services[i])[2] == "na" <==> services[i].value.table.None? || services[i].value.table.value in {"", "na"})
  {
  }
}
