/** The closed domain of package identities and the error codes shared by all operations. */
module Domain {
  import opened Text
  import Versions

  datatype CupError =
    | Ok
    | InvalidInput
    | InvalidRelease
    | InvalidTool
    | NotAvailable
    | CatalogError
    | StateLoad
    | StateFull
    | DefaultFull
    | AlreadyInstalled
    | NotInstalled
    | InconsistentState
    | Filesystem
    | TemporaryError
    | LockError
    | TransactionError
    | BufferTooSmall
    | ArchiveUnsafe
    | Validation
    | Commit
    | Rollback
    | Interrupt

  const COMPONENTS: seq<string> :=
    ["compiler", "debugger", "linker", "formatter", "linter", "language-server", "analyzer", "package-manager"]

  const TOOLS: seq<(string, string)> :=
    [("compiler", "gcc"), ("compiler", "clang"), ("debugger", "gdb"), ("debugger", "lldb"),
     ("linker", "lld"), ("linker", "ld"), ("formatter", "clang-format"), ("linter", "clang-tidy"),
     ("language-server", "clangd"), ("analyzer", "valgrind"), ("package-manager", "coffee")]

  const PLATFORMS: seq<string> := ["linux-x64", "linux-arm64", "windows-x64", "macos-x64", "macos-arm64"]

  /** Component, host and target: one selectable package scope. */
  datatype Scope = Scope(component: string, host: string, target: string)

  datatype Identity = Identity(component: string, tool: string, host: string, target: string, version: string)

  function ScopeOf(id: Identity): Scope {
    Scope(id.component, id.host, id.target)
  }

  predicate ValidScope(s: Scope) {
    s.component in COMPONENTS && s.host in PLATFORMS && s.target in PLATFORMS
  }

  predicate ValidIdentity(id: Identity) {
    && ValidScope(ScopeOf(id))
    && (id.component, id.tool) in TOOLS
    && Versions.IsVersion(id.version)
  }
}
