/** The process-wide table of custom types. The parser keeps it as class-level state that
    registerType updates in place and every parser instance reads; here it is one object, and the
    dispatch functions of module Parser read its map. */
module Registry {
  import opened Types
  import opened Parser

  class TypeRegistry {
    /** Custom type name to converter; empty until something is registered. */
    var custom: map<string, CustomConverter>

    constructor()
      ensures custom == map[]
    {
      custom := map[];
    }

    /** A converter is registered under `name`: for a name that is not built in, exactly when
        dispatch resolves it. */
    function HasCustomType(name: string): (b: bool)
      reads this
      ensures BuiltinFor(name).None? ==> (b <==> Resolve(custom, name).Ok?)
      ensures b && BuiltinFor(name).None? ==> Resolve(custom, name) == Ok(Custom(custom[name]))
    {
      name in custom
    }

    /** Stores `f` under `name`, replacing an earlier registration of that name; every other
        registration is kept as it was. */
    method RegisterType(name: string, f: CustomConverter)
      modifies this
      ensures custom == old(custom)[name := f]
      ensures HasCustomType(name) && custom[name] == f
      ensures forall t :: t != name ==> (HasCustomType(t) <==> old(HasCustomType(t)))
      ensures forall t :: t != name && t in old(custom) ==> custom[t] == old(custom)[t]
    {
      custom := custom[name := f];
    }
  }
}
