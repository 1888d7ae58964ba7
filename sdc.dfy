/**
 * A single-directory component as the plugin manager describes it: the
 * plugin definition fields the modules read.
 */
module Sdc {
  import opened Wrappers
  import opened Values

  datatype Component = Component(
    id: string,                  // plugin id "<provider>:<machineName>"
    machineName: string,
    provider: string,
    name: Option<string>,
    group: Option<string>,
    description: Option<string>,
    path: string,                // the component's folder
    discoveredFilePath: string,  // its "<machineName>.component.yml"
    props: Option<Value>,        // the props schema, when the definition has one
    slots: seq<string>,          // declared slot names
    library: Value,              // the generated library definition
    extensionType: string)       // "Module" or "Theme"

  /** The plugin id the manager gives a component of `provider` named `machineName`. */
  function PluginId(provider: string, machineName: string): (id: string)
    ensures |id| == |provider| + 1 + |machineName|
    ensures id[..|provider|] == provider && id[|provider|] == ':' && id[|provider| + 1..] == machineName
  {
    provider + ":" + machineName
  }

  /** What `createInstance($id)` finds among the discovered components: the first with that id. */
  function Find(registry: seq<Component>, id: string): (r: Option<Component>)
    ensures r.Some? ==> r.value in registry && r.value.id == id
    ensures r.None? ==> forall c :: c in registry ==> c.id != id
  {
    if registry == [] then None
    else if registry[0].id == id then Some(registry[0])
    else Find(registry[1..], id)
  }
}
