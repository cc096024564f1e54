/** The configuration resolver of src/config.js. The configuration object is
    passed in explicitly, as the list of its own properties. */
module Config {
  import opened Outcomes
  import opened JsValues

  /** The empty mapping `{}`. */
  const EmptySection: Value := Obj([])

  /** `getConfig(packageName, config)`: `config[packageName] || {}`.
      It never throws, and the section it returns is always truthy. */
  function GetConfig(packageName: string, config: seq<Prop>): (section: Value)
    ensures Truthy(section)
    ensures (Lookup(config, packageName).Some? && Truthy(Lookup(config, packageName).value))
      ==> section == Lookup(config, packageName).value
    ensures !(Lookup(config, packageName).Some? && Truthy(Lookup(config, packageName).value))
      ==> section == EmptySection
  {
    var v := Get(Obj(config), packageName).value;
    if Truthy(v) then v else EmptySection
  }
}
