/**
 * The resource registry the coordinator delegates to, as an in-memory tree:
 * each registered URI maps to its type, its parameters and its parent. The
 * registry itself is a collaborator of the coordinator; its operations are
 * modelled with the error contract the coordinator relies on.
 */
module Registry {
  import opened Wrappers
  import opened Metrics

  /** A registered resource. `rtype` is `None` when it was registered with a `null` type. */
  datatype Resource = Resource(rtype: Option<string>, params: Params, parent: Option<string>)

  /** The registry: registered URI to resource. */
  type Resources = map<string, Resource>

  /** `ResourceAlreadyRegisteredException` and `ResourceNotRegisteredException`. */
  datatype RegistryError = AlreadyRegistered(uri: string) | NotRegistered(uri: string)

  /** `addResource`: register `u` as a root resource. */
  function AddRoot(reg: Resources, u: string, t: Option<string>, ps: Params): (r: Result<Resources, RegistryError>)
    ensures r.Err? <==> u in reg
    ensures r.Err? ==> r.error == AlreadyRegistered(u)
    ensures r.Ok? ==> r.value == reg[u := Resource(t, ps, None)]
  {
    if u in reg then Err(AlreadyRegistered(u)) else Ok(reg[u := Resource(t, ps, None)])
  }

  /** `addChildResource`: register `u` under the registered resource `parent`. */
  function AddChild(reg: Resources, parent: string, u: string, t: Option<string>, ps: Params)
    : (r: Result<Resources, RegistryError>)
    ensures r.Err? <==> parent !in reg || u in reg
    ensures parent !in reg ==> r == Err(NotRegistered(parent))
    ensures r.Ok? ==> r.value == reg[u := Resource(t, ps, Some(parent))]
  {
    if parent !in reg then Err(NotRegistered(parent))
    else if u in reg then Err(AlreadyRegistered(u))
    else Ok(reg[u := Resource(t, ps, Some(parent))])
  }

  /**
   * `registerResource`: a child of `parentOf(u)` when that parent is
   * registered, a root otherwise. The registry's "parent not found" error
   * cannot arise here, since the parent was just found registered.
   */
  function Register(reg: Resources, parentOf: string -> string, u: string, t: Option<string>, ps: Params)
    : (r: Result<Resources, RegistryError>)
  {
    var parent := parentOf(u);
    if parent in reg then AddChild(reg, parent, u, t, ps) else AddRoot(reg, u, t, ps)
  }

  /**
   * Registering fails exactly for a URI already registered, and otherwise
   * adds that URI alone, linked to its parent when the parent is registered
   * and as a root when it is not.
   */
  lemma RegisterChildOrRoot(reg: Resources, parentOf: string -> string, u: string, t: Option<string>, ps: Params)
    ensures Register(reg, parentOf, u, t, ps).Err? <==> u in reg
    ensures u in reg ==> Register(reg, parentOf, u, t, ps) == Err(AlreadyRegistered(u))
    ensures u !in reg ==>
      Register(reg, parentOf, u, t, ps) ==
      Ok(reg[u := Resource(t, ps, if parentOf(u) in reg then Some(parentOf(u)) else None)])
  {
  }

  /** A second registration of the same URI fails and changes nothing. */
  lemma RegisterTwiceFails(reg: Resources, parentOf: string -> string, u: string, t: Option<string>,
                           ps: Params, t2: Option<string>, ps2: Params)
    requires Register(reg, parentOf, u, t, ps).Ok?
    ensures u in Register(reg, parentOf, u, t, ps).value
    ensures Register(Register(reg, parentOf, u, t, ps).value, parentOf, u, t2, ps2) == Err(AlreadyRegistered(u))
  {
  }

  /** `addResourceParameters`: merge `ps` into the parameters of the registered `u`. */
  function AddParameters(reg: Resources, u: string, ps: Params): (r: Result<Resources, RegistryError>)
    ensures r.Err? <==> u !in reg
    ensures r.Err? ==> r.error == NotRegistered(u)
    ensures r.Ok? ==> r.value.Keys == reg.Keys
    ensures r.Ok? ==> forall v :: v in reg && v != u ==> r.value[v] == reg[v]
    ensures r.Ok? ==> r.value[u].rtype == reg[u].rtype && r.value[u].parent == reg[u].parent
    ensures r.Ok? ==> forall k :: k in ps ==> k in r.value[u].params && r.value[u].params[k] == ps[k]
    ensures r.Ok? ==> forall k :: k in reg[u].params && k !in ps ==> k in r.value[u].params && r.value[u].params[k] == reg[u].params[k]
  {
    if u !in reg then Err(NotRegistered(u))
    else Ok(reg[u := reg[u].(params := reg[u].params + ps)])
  }

  /** The children registered under `parent`. */
  function ChildrenOf(reg: Resources, parent: string): set<string>
  {
    set u | u in reg && reg[u].parent == Some(parent)
  }

  /** A child registration adds exactly one child to its parent and nothing to any other resource. */
  lemma AddChildLinksOneChild(reg: Resources, parent: string, u: string, t: Option<string>, ps: Params)
    requires AddChild(reg, parent, u, t, ps).Ok?
    ensures ChildrenOf(AddChild(reg, parent, u, t, ps).value, parent) == ChildrenOf(reg, parent) + {u}
    ensures forall q :: q != parent ==> ChildrenOf(AddChild(reg, parent, u, t, ps).value, q) == ChildrenOf(reg, q)
  {
    var reg' := AddChild(reg, parent, u, t, ps).value;
    forall q ensures ChildrenOf(reg', q) == ChildrenOf(reg, q) + (if q == parent then {u} else {}) {
      assert forall v :: v in reg' && reg'[v].parent == Some(q) <==>
        (v in reg && reg[v].parent == Some(q)) || (v == u && q == parent);
    }
  }

  /** `removeResource`: the entry goes; its children stay, now without a registered parent. */
  function Unregister(reg: Resources, u: string): (r: Resources)
    ensures r.Keys == reg.Keys - {u}
    ensures forall v :: v in r ==> r[v] == reg[v]
  {
    reg - {u}
  }
}
