/** The values every graph analysis works on: crate types, targets, packages and units.

    `Unit` is interned in Cargo, so two handles are the same pointer exactly when the
    contents are equal (see module `Interning`); here a unit is its contents. */
module Units {

  datatype Option<+T> = None | Some(value: T)

  datatype CrateType =
    | Bin | Lib | Rlib | Dylib | Cdylib | Staticlib | ProcMacro | Other(name: string)
  {
    predicate CanLto() {
      Bin? || Staticlib? || Cdylib?
    }

    predicate IsLinkable() {
      Lib? || Rlib? || Dylib? || ProcMacro?
    }

    predicate IsDynamic() {
      Dylib? || Cdylib? || ProcMacro?
    }
  }

  datatype TargetKind =
    | LibTarget(crateTypes: seq<CrateType>)
    | BinTarget
    | TestTarget
    | BenchTarget
    | ExampleLib(crateTypes: seq<CrateType>)
    | ExampleBin
    | CustomBuild

  datatype Target = Target(name: string, kind: TargetKind, forHost: bool, procMacro: bool, documented: bool)
  {
    function RustcCrateTypes(): seq<CrateType> {
      match kind
      case LibTarget(kinds) => kinds
      case ExampleLib(kinds) => kinds
      case _ => [Bin]
    }

    predicate IsLib() { kind.LibTarget? }

    predicate IsBin() { kind.BinTarget? }

    predicate IsTest() { kind.TestTarget? }

    predicate IsBench() { kind.BenchTarget? }

    predicate IsExample() { kind.ExampleBin? || kind.ExampleLib? }

    predicate IsCustomBuild() { kind.CustomBuild? }

    predicate IsLinkable() {
      kind.LibTarget? && exists k | k in kind.crateTypes :: k.IsLinkable()
    }
  }

  datatype CompileMode =
    | Test | Build | Check(test: bool) | Doc | Doctest | Docscrape | RunCustomBuild
  {
    predicate IsAnyTest() {
      Test? || Doctest? || (Check? && test)
    }
  }

  datatype CompileKind = Host | ForTarget(triple: string)

  /** `profiles::Lto`: what the profile asks for. */
  datatype ProfileLto = LtoOff | LtoBool(on: bool) | LtoNamed(name: string)

  type PackageId = nat

  datatype Package = Package(id: PackageId, name: string, links: Option<string>, targets: seq<Target>)
  {
    predicate HasCustomBuild() {
      exists t | t in targets :: t.IsCustomBuild()
    }
  }

  /** The fields of `UnitInner` that the analyses read. `variant` stands for the remaining
      identity of a unit (profile, features, flags, dependency hash). */
  datatype Unit = Unit(
    pkg: Package,
    target: Target,
    lto: ProfileLto,
    kind: CompileKind,
    mode: CompileMode,
    linksOverridden: bool,
    artifact: bool,
    isStd: bool,
    variant: nat)
  {
    predicate IsRunCustomBuild() { mode.RunCustomBuild? }
  }
}
