/** Store paths, as produced by evaluation or by a reference list. */
module StorePaths {
  import opened Wrappers

  type Hash = string

  datatype Origin = Origin(attr: string, output: string, toplevel: bool, system: Option<string>)

  datatype StorePath = StorePath(storeDir: string, hash: Hash, name: string, origin: Origin)

  /** The `attr.output` label of a path. */
  function Label(path: StorePath): string {
    path.origin.attr + "." + path.origin.output
  }
}
