/** Permissions, privileges and the verdicts of an access check. */
module Security {
  /** The six permissions, by name, so that masks can be reasoned about one permission at a time. */
  datatype Bit = CreateBit | SelectBit | DeleteBit | ReadBit | WriteBit | ExecuteBit

  datatype ChildPerms = ChildPerms(create: bool, select: bool, delete: bool) {
    function Or(block: ChildPerms): ChildPerms {
      ChildPerms(create || block.create, select || block.select, delete || block.delete)
    }

    function And(block: ChildPerms): ChildPerms {
      ChildPerms(create && block.create, select && block.select, delete && block.delete)
    }
  }

  datatype ParticlePerms = ParticlePerms(read: bool, write: bool, execute: bool) {
    function Or(block: ParticlePerms): ParticlePerms {
      ParticlePerms(read || block.read, write || block.write, execute || block.execute)
    }

    function And(block: ParticlePerms): ParticlePerms {
      ParticlePerms(read && block.read, write && block.write, execute && block.execute)
    }
  }

  datatype Permissions = Permissions(child: ChildPerms, particle: ParticlePerms) {
    predicate Has(bit: Bit) {
      match bit
      case CreateBit => child.create
      case SelectBit => child.select
      case DeleteBit => child.delete
      case ReadBit => particle.read
      case WriteBit => particle.write
      case ExecuteBit => particle.execute
    }

    function Or(mask: Permissions): (r: Permissions)
      ensures forall bit :: r.Has(bit) <==> Has(bit) || mask.Has(bit)
    {
      Permissions(child.Or(mask.child), particle.Or(mask.particle))
    }

    function And(mask: Permissions): (r: Permissions)
      ensures forall bit :: r.Has(bit) <==> Has(bit) && mask.Has(bit)
    {
      Permissions(child.And(mask.child), particle.And(mask.particle))
    }
  }

  const FULL_PERMISSIONS := Permissions(ChildPerms(true, true, true), ParticlePerms(true, true, true))
  const NO_PERMISSIONS := Permissions(ChildPerms(false, false, false), ParticlePerms(false, false, false))

  lemma SameBits(a: Permissions, b: Permissions)
    requires forall bit :: a.Has(bit) <==> b.Has(bit)
    ensures a == b
  {
    assert a.Has(CreateBit) == b.Has(CreateBit) && a.Has(SelectBit) == b.Has(SelectBit);
    assert a.Has(DeleteBit) == b.Has(DeleteBit) && a.Has(ReadBit) == b.Has(ReadBit);
    assert a.Has(WriteBit) == b.Has(WriteBit) && a.Has(ExecuteBit) == b.Has(ExecuteBit);
  }

  datatype Privilege = FullPrivilege | Single(name: string)

  datatype Privileges = FullPrivileges | Enumerated(names: set<string>) {
    predicate Has(privilege: string) {
      FullPrivileges? || privilege in names
    }

    function With(privilege: Privilege): Privileges {
      match privilege
      case FullPrivilege => FullPrivileges
      case Single(name) => if FullPrivileges? then FullPrivileges else Enumerated(names + {name})
    }
  }

  datatype MaskKind = OrMask | AndMask

  datatype PermissionsMask = PermissionsMask(kind: MaskKind, permissions: Permissions)

  datatype EnumeratedAccess = EnumeratedAccess(permissions: Permissions, privileges: Privileges)

  datatype Access = Super | Owner | SuperOwner | EnumeratedOnly(enumerated: EnumeratedAccess) {
    predicate HasSuper() {
      Super? || SuperOwner?
    }

    predicate HasFull() {
      !EnumeratedOnly?
    }

    function Permissions(): Permissions {
      if EnumeratedOnly? then enumerated.permissions else FULL_PERMISSIONS
    }

    predicate CheckPrivilege(privilege: string) {
      EnumeratedOnly? ==> enumerated.privileges.Has(privilege)
    }
  }
}
