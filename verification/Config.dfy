/** The part of a dataset's configuration that drives dependency order, startup,
    scheduled refresh and cascade refresh. Durations are in nanoseconds. */
module Config {
  import opened Wrappers

  datatype SourceKind = Parquet | Delta | Query

  datatype Refresh = Refresh(interval: Option<nat>, onUpstreamReload: bool, timeout: nat, jitter: bool, debounce: nat)

  datatype Dataset = Dataset(
    name: string,
    kind: SourceKind,
    dependsOn: seq<string>,
    refresh: Option<Refresh>,
    managed: bool)

  /** Configuration validation refuses a repeated dataset name. */
  ghost predicate UniqueNames(ds: seq<Dataset>) {
    forall i, j :: 0 <= i < j < |ds| ==> ds[i].name != ds[j].name
  }

  /** Configuration validation refuses a refresh block on a file-backed dataset. */
  ghost predicate RefreshOnlyOnQueries(ds: seq<Dataset>) {
    forall i :: 0 <= i < |ds| && ds[i].refresh.Some? ==> ds[i].kind.Query?
  }
}
