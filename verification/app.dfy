/** The query and scan sub-commands registered for a service: each command's signature and
    description. The service's access-pattern and scan bindings are taken as inputs. */
module App {
  import opened Wrappers
  import opened Text
  import opened Instances
  import opened Cli

  /** A registered command: the signature given to `program.command` and its description. */
  datatype Command = Command(signature: string, description: string)

  /** What a binding knows of its instance: name, `type` tag and facets. */
  datatype BoundInstance = BoundInstance(name: string, instanceType: string, facets: seq<Facet>)

  /** An access pattern of the service and the instance it resolves to, if any. */
  datatype QueryBinding = QueryBinding(accessPattern: string, instance: Option<BoundInstance>)

  /** The query command for one access pattern: none without an instance or for an instance
      that is neither an entity nor a collection. */
  function QueryCommandFor(b: QueryBinding): Option<Command> {
    if b.instance.None? then None
    else
      var inst := b.instance.value;
      var signature := Lower(b.accessPattern) + " " + Join(Params(inst.facets), " ");
      if inst.instanceType == "entity" then
        Some(Command(signature, "Query the entity \"" + inst.name + "\" by \"" + b.accessPattern + "\"."))
      else if inst.instanceType == "collection" then
        Some(Command(signature, "Query the collection \"" + b.accessPattern + "\"."))
      else None
  }

  function QueryCommandsOf(bindings: seq<QueryBinding>): seq<Command> {
    if bindings == [] then []
    else
      var c := QueryCommandFor(bindings[|bindings| - 1]);
      QueryCommandsOf(bindings[..|bindings| - 1]) + (if c.Some? then [c.value] else [])
  }

  /** `queryCommand`: walks the access patterns, skipping those without an instance and
      (`continue`) those of another type, and registers one command for each of the rest. */
  method QueryCommands(bindings: seq<QueryBinding>) returns (commands: seq<Command>)
    ensures commands == QueryCommandsOf(bindings)
  {
    commands := [];
    for i := 0 to |bindings|
      invariant commands == QueryCommandsOf(bindings[..i])
    {
      assert bindings[..i + 1][..i] == bindings[..i];
      var binding := bindings[i];
      if binding.instance.Some? {
        var instance := binding.instance.value;
        var name := Lower(binding.accessPattern);
        var description := "";
        if instance.instanceType == "entity" {
          description := "Query the entity \"" + instance.name + "\" by \"" + binding.accessPattern + "\".";
        } else if instance.instanceType == "collection" {
          description := "Query the collection \"" + binding.accessPattern + "\".";
        } else {
          continue;
        }
        var params := FormatFacetParams(instance.facets);
        commands := commands + [Command(name + " " + params, description)];
      }
    }
    assert bindings[..|bindings|] == bindings;
  }

  /** Exactly the access patterns bound to an entity or a collection get a command, in order. */
  predicate Eligible(b: QueryBinding) {
    b.instance.Some? && (b.instance.value.instanceType == "entity" || b.instance.value.instanceType == "collection")
  }

  function EligibleOf(bindings: seq<QueryBinding>): seq<QueryBinding> {
    if bindings == [] then []
    else EligibleOf(bindings[..|bindings| - 1]) + (if Eligible(bindings[|bindings| - 1]) then [bindings[|bindings| - 1]] else [])
  }

  lemma {:induction false} QueryCommandsAreEligible(bindings: seq<QueryBinding>)
    ensures |QueryCommandsOf(bindings)| == |EligibleOf(bindings)|
    ensures forall i :: 0 <= i < |EligibleOf(bindings)| ==>
      Some(QueryCommandsOf(bindings)[i]) == QueryCommandFor(EligibleOf(bindings)[i])
  {
    if bindings != [] {
      QueryCommandsAreEligible(bindings[..|bindings| - 1]);
    }
  }

  /** A query command's signature is the lower-cased access pattern, then the facet
      parameters: its first word is the command name and the remaining words are one
      parameter per facet. */
  lemma QuerySignature(b: QueryBinding)
    requires Eligible(b)
    requires ' ' !in b.accessPattern
    requires forall i :: 0 <= i < |b.instance.value.facets| ==> ' ' !in b.instance.value.facets[i].name
    ensures var words := Split(QueryCommandFor(b).value.signature, ' ');
      && words[0] == Lower(b.accessPattern)
      && (b.instance.value.facets == [] ==> words == [Lower(b.accessPattern), ""])
      && (b.instance.value.facets != [] ==> words[1..] == Params(b.instance.value.facets))
  {
    var facets := b.instance.value.facets;
    var name := Lower(b.accessPattern);
    assert ' ' !in name;
    SplitAtFirst(name, Join(Params(facets), " "), ' ');
    assert QueryCommandFor(b).value.signature == name + [' '] + Join(Params(facets), " ");
    if facets != [] {
      forall i | 0 <= i < |facets| ensures ' ' !in Params(facets)[i] {
        assert Params(facets)[i] == Param(facets[i]);
      }
      JoinSplit(Params(facets), ' ');
    }
  }

  /** The scan command for an entity named in the service's scans: only when the first
      instance of that exact name is an entity; named by the lower-cased entity, with no
      facet parameters. */
  function ScanCommandFor(entity: string, instances: seq<BoundInstance>): (r: Option<Command>)
    ensures r.Some? <==> exists i ::
      && 0 <= i < |instances| && instances[i].name == entity && instances[i].instanceType == "entity"
      && forall j :: 0 <= j < i ==> instances[j].name != entity
    ensures r.Some? ==> r.value == Command(Lower(entity), "Perform scan on " + entity + " entities.")
  {
    var i := FirstNamed(instances, entity);
    if i < |instances| && instances[i].instanceType == "entity" then
      Some(Command(Lower(entity), "Perform scan on " + entity + " entities."))
    else None
  }

  /** `service.instances.find(instance => instance.name === entity)`, as a position. */
  function FirstNamed(instances: seq<BoundInstance>, name: string): (i: nat)
    ensures i <= |instances|
    ensures i < |instances| ==> instances[i].name == name
    ensures forall j :: 0 <= j < i ==> instances[j].name != name
  {
    if instances == [] then 0
    else if instances[0].name == name then 0
    else 1 + FirstNamed(instances[1..], name)
  }

  function ScanCommandsOf(scans: seq<string>, instances: seq<BoundInstance>): seq<Command> {
    if scans == [] then []
    else
      var c := ScanCommandFor(scans[|scans| - 1], instances);
      ScanCommandsOf(scans[..|scans| - 1], instances) + (if c.Some? then [c.value] else [])
  }

  /** `scanCommand`: one command per scan whose instance is an entity, in scan order. */
  method ScanCommands(scans: seq<string>, instances: seq<BoundInstance>) returns (commands: seq<Command>)
    ensures commands == ScanCommandsOf(scans, instances)
  {
    commands := [];
    for i := 0 to |scans|
      invariant commands == ScanCommandsOf(scans[..i], instances)
    {
      assert scans[..i + 1][..i] == scans[..i];
      var entity := scans[i];
      var k := 0;
      while k < |instances| && instances[k].name != entity
        invariant 0 <= k <= |instances|
        invariant forall j :: 0 <= j < k ==> instances[j].name != entity
      {
        k := k + 1;
      }
      if k < |instances| && instances[k].instanceType == "entity" {
        commands := commands + [Command(Lower(entity), "Perform scan on " + entity + " entities.")];
      }
    }
    assert scans[..|scans|] == scans;
  }

  /** Scan command names carry no facet parameter: with no space in the entity names, every
      scan signature is a single word. */
  lemma {:induction false} ScanSignaturesAreOneWord(scans: seq<string>, instances: seq<BoundInstance>)
    requires forall i :: 0 <= i < |scans| ==> ' ' !in scans[i]
    ensures |ScanCommandsOf(scans, instances)| <= |scans|
    ensures forall c :: c in ScanCommandsOf(scans, instances) ==> ' ' !in c.signature
  {
    if scans != [] {
      ScanSignaturesAreOneWord(scans[..|scans| - 1], instances);
    }
  }
}
