/** The environment overrides of the service: the table built from the env
    elements when the descriptor is created, and the copy handed out of it. */
module Environment {
  import opened Settings
  import opened Xml

  /** Dictionary<string, string>: a mutable table of strings. */
  class StringMap {
    var entries: map<string, string>

    /** new Dictionary<string, string>(): an empty table. */
    constructor ()
      ensures entries == map[]
    {
      entries := map[];
    }

    /** new Dictionary<string, string>(source): a new table with the same entries. */
    constructor Copy(source: StringMap)
      ensures entries == source.entries
    {
      entries := source.entries;
    }

    /** The indexer's setter: adds the key or overwrites its value. */
    method Set(key: string, value: string)
      modifies this
      ensures entries == old(entries)[key := value]
    {
      entries := entries[key := value];
    }
  }

  /** An env element can be read: it has both a name and a value attribute. */
  predicate IsEnvEntry(e: Element)
  {
    "name" in e.attributes && "value" in e.attributes
  }

  function Name(e: Element): string
    requires IsEnvEntry(e)
  {
    e.attributes["name"]
  }

  /** The table the env elements describe, in document order: each sets its name to
      its expanded value, so of two elements with one name the later one wins. */
  function Overrides(envs: seq<Element>, expand: Expander): map<string, string>
    requires forall i :: 0 <= i < |envs| ==> IsEnvEntry(envs[i])
  {
    if envs == [] then map[]
    else
      var last := envs[|envs| - 1];
      Overrides(envs[..|envs| - 1], expand)[Name(last) := expand(last.attributes["value"])]
  }

  /** The names the env elements carry. */
  function Names(envs: seq<Element>): set<string>
    requires forall i :: 0 <= i < |envs| ==> IsEnvEntry(envs[i])
  {
    set i | 0 <= i < |envs| :: Name(envs[i])
  }

  /** The names of a non-empty list are those of its front and the name of its last element. */
  lemma NamesOfLast(envs: seq<Element>)
    requires forall i :: 0 <= i < |envs| ==> IsEnvEntry(envs[i])
    requires envs != []
    ensures Names(envs) == Names(envs[..|envs| - 1]) + {Name(envs[|envs| - 1])}
  {
    var front := envs[..|envs| - 1];
    forall k | k in Names(envs) ensures k in Names(front) + {Name(envs[|envs| - 1])} {
      var i :| 0 <= i < |envs| && Name(envs[i]) == k;
      if i < |front| {
        assert Name(front[i]) == k;
      }
    }
    forall k | k in Names(front) ensures k in Names(envs) {
      var i :| 0 <= i < |front| && Name(front[i]) == k;
      assert Name(envs[i]) == k;
    }
  }

  /** The keys of the table are exactly the names of the env elements. */
  lemma {:induction false} OverridesKeys(envs: seq<Element>, expand: Expander)
    requires forall i :: 0 <= i < |envs| ==> IsEnvEntry(envs[i])
    ensures Overrides(envs, expand).Keys == Names(envs)
  {
    if envs != [] {
      OverridesKeys(envs[..|envs| - 1], expand);
      NamesOfLast(envs);
    }
  }

  /** A name's value is the expanded value of the last env element carrying it. */
  lemma {:induction false} OverridesLastWins(envs: seq<Element>, expand: Expander, j: nat)
    requires forall i :: 0 <= i < |envs| ==> IsEnvEntry(envs[i])
    requires j < |envs|
    requires forall i :: j < i < |envs| ==> Name(envs[i]) != Name(envs[j])
    ensures Name(envs[j]) in Overrides(envs, expand)
    ensures Overrides(envs, expand)[Name(envs[j])] == expand(envs[j].attributes["value"])
  {
    if j < |envs| - 1 {
      var front := envs[..|envs| - 1];
      assert front[j] == envs[j];
      OverridesLastWins(front, expand, j);
    }
  }

  /** Every env element of the document can be read. */
  predicate EnvEntriesReadable(root: Element)
  {
    forall i :: 0 <= i < |SelectNodes(root, "env")| ==> IsEnvEntry(SelectNodes(root, "env")[i])
  }

  /** LoadEnvironmentVariables: a new table filled from the env elements in document order. */
  method LoadEnvironmentVariables(root: Element, expand: Expander) returns (environment: StringMap)
    requires EnvEntriesReadable(root)
    ensures fresh(environment)
    ensures environment.entries == Overrides(SelectNodes(root, "env"), expand)
  {
    var nodeList := SelectNodes(root, "env");
    environment := new StringMap();
    for i := 0 to |nodeList|
      invariant environment.entries == Overrides(nodeList[..i], expand)
    {
      var node := nodeList[i];
      var key := node.attributes["name"];
      var value := expand(node.attributes["value"]);
      assert nodeList[..i + 1][..i] == nodeList[..i];
      environment.Set(key, value);
    }
    assert nodeList[..|nodeList|] == nodeList;
  }

  /** The part of ServiceDescriptor that owns the environment table. */
  class ServiceDescriptor {
    const dom: Element
    const environmentVariables: StringMap

    /** ServiceDescriptor(XmlDocument dom): keeps the document and loads the table. */
    constructor (dom: Element, expand: Expander)
      requires EnvEntriesReadable(dom)
      ensures this.dom == dom
      ensures fresh(environmentVariables)
      ensures environmentVariables.entries == Overrides(SelectNodes(dom, "env"), expand)
    {
      this.dom := dom;
      var environment := LoadEnvironmentVariables(dom, expand);
      this.environmentVariables := environment;
    }

    /** EnvironmentVariables: a new table with the descriptor's entries. */
    method EnvironmentVariables() returns (r: StringMap)
      ensures fresh(r)
      ensures r.entries == environmentVariables.entries
    {
      r := new StringMap.Copy(environmentVariables);
    }
  }

  /** A caller that writes into the table it was given leaves the descriptor's table as it was. */
  method OverwriteCopy(d: ServiceDescriptor, key: string, value: string) returns (copy: StringMap)
    ensures fresh(copy)
    ensures copy.entries == d.environmentVariables.entries[key := value]
    ensures d.environmentVariables.entries == old(d.environmentVariables.entries)
  {
    copy := d.EnvironmentVariables();
    copy.Set(key, value);
  }
}
