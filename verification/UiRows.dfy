/** A listener row of the terminal interface, reduced to what ordering, grouping and selection read. */
module UiRows {
  /** commandLine counts as evidence only when hasCommandLine holds. */
  datatype Listener = Listener(pid: int, startTime: string, hasCommandLine: bool, commandLine: string)

  /**
   portNumber is the first port as a number (1 << 30 without ports); what and dir are lower-cased;
   risk is the rank 0, 1 or 2; haystack is the lower-cased text the filter searches.
   */
  datatype Row = Row(
    l: Listener,
    ports: seq<string>,
    portNumber: int,
    what: string,
    risk: int,
    source: string,
    dir: string,
    cpu: real,
    actionable: bool,
    haystack: string)

  predicate IsFavorite(r: Row, favs: set<string>) {
    exists i :: 0 <= i < |r.ports| && r.ports[i] in favs
  }
}
