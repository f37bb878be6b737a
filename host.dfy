/** What the player asks of the machine it runs on, reduced to values. */
module Host {

  datatype Option<+T> = None | Some(value: T)

  /** The set of paths that exist on the local filesystem at the moment of a call. */
  type Disk = set<string>

  /** An existence check by opening the file for reading: true exactly when the path exists. */
  predicate FileExists(disk: Disk, path: string)
  {
    path in disk
  }
}
