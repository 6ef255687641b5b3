/** The documents in etcd, with the store in step: every accepted put is read back at once. */
module Etcd {
  import opened Model
  import opened Order
  import opened Commands

  class Client {
    var ready: bool
    var registry: Registry
    var groups: map<string, Groups>
    var puts: nat  // accepted so far

    constructor (registry: Registry, groups: map<string, Groups>)
      ensures !ready && this.registry == registry && this.groups == groups && puts == 0
    {
      ready, puts := false, 0;
      this.registry := registry;
      this.groups := groups;
    }

    function Docs(cg: string): Groups
      reads this
    {
      if cg in groups then groups[cg] else map[]
    }

    /** Names below a cluster group, in order. */
    method ListChildren(cg: string) returns (names: seq<string>)
      ensures names == SortedNames(Listed(Docs(cg)))
    {
      names := Sort(Listed(Docs(cg)));
    }

    method Put(cg: string, mg: string, d: GroupDocs)
      modifies this`groups, this`puts
      ensures Docs(cg) == old(Docs(cg))[mg := d]
      ensures forall c | c != cg :: Docs(c) == old(Docs(c))
      ensures puts == old(puts) + 1
    {
      groups := groups[cg := Docs(cg)[mg := d]];
      puts := puts + 1;
    }
  }
}
