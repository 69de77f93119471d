/** The service configuration file: a record from service name to the file it was loaded
    from. The file is a field (`None` until first written) and path resolution is the
    `resolve` function. */
module Config {
  import opened Wrappers
  import opened Records
  import opened Registry

  datatype InstanceConfig = InstanceConfig(filePath: string)

  function PathOf(c: InstanceConfig): string {
    c.filePath
  }

  class ServiceConfig {
    /** The file's content; `None` while there is no file. */
    var file: Option<Rec<InstanceConfig>>
    /** How `RemoteFile(filePath).path()` resolves a path. */
    const resolve: string -> string

    /** The stored record is a JSON object: each name once. */
    ghost predicate Valid()
      reads this
    {
      file.Some? ==> WellFormed(file.value)
    }

    constructor(resolve: string -> string, file: Option<Rec<InstanceConfig>>)
      requires file.Some? ==> WellFormed(file.value)
      ensures this.resolve == resolve && this.file == file && Valid()
    {
      this.resolve := resolve;
      this.file := file;
    }

    /** `get()`: a missing file is written as `{}` and `{}` returned; otherwise the stored record. */
    method Get() returns (r: Rec<InstanceConfig>)
      requires Valid()
      modifies this`file
      ensures r == old(file).GetOr([]) && file == Some(r) && Valid()
    {
      if file.None? {
        file := Some([]);
        return [];
      }
      return file.value;
    }

    /** `append(filePath, name, {overwrite})`: the decision of `Appended`, storing only the
        resolved path; an assignment is written back. */
    method Append(filePath: string, name: string, overwrite: bool) returns (r: Result<Rec<InstanceConfig>, string>)
      requires Valid()
      modifies this`file
      ensures r == Appended(old(file).GetOr([]), name, filePath, resolve(filePath), overwrite, InstanceConfig(resolve(filePath)), PathOf)
      ensures file == Some(if r.Success? then r.value else old(file).GetOr([]))
      ensures r.Failure? ==> file == old(file)
      ensures Valid()
    {
      var config := Get();
      var existing := Records.Get(config, name);
      var resolved := resolve(filePath);
      if !overwrite && existing.Some? {
        if resolved == filePath {
          return Success(config);
        } else {
          return Failure(DuplicateError(name, existing.value.filePath));
        }
      }
      SetSemantics(config, name, InstanceConfig(resolved));
      config := Set(config, name, InstanceConfig(resolved));
      file := Some(config);
      return Success(config);
    }

    /** `remove(name)`: deletes the first name equal to `name` ignoring case, writes the
        record back in either case, and returns the name as it was stored (`""` for none). */
    method Remove(name: string) returns (removed: string)
      requires Valid()
      modifies this`file
      ensures file == Some(Removed(old(file).GetOr([]), name).0)
      ensures removed == Removed(old(file).GetOr([]), name).1
      ensures Valid()
    {
      var config := Get();
      var remaining;
      remaining, removed := DeleteFirstIgnoringCase(config, name);
      if FirstMatchIgnoringCase(config, name) < |config| {
        DeleteFirstKeepsOthers(config, name);
      }
      file := Some(remaining);
    }
  }
}
