/** The stored records of the exporter: one row of the `pipelines` table
    and one row of a trend response. */
module Models {
  import opened Wrappers

  /** A pipeline as stored. `userName` is a plain string: the Rust record
      never carries a null name, only an empty one. */
  datatype Pipeline = Pipeline(
    id: int,
    projectId: int,
    projectName: string,
    projectFullPath: string,
    refName: string,
    sha: string,
    userName: string,
    status: string,
    createdAt: int,
    finishedAt: Option<int>,
    duration: Option<int>,
    webUrl: Option<string>)

  /** One (date, status, count) row of the trend endpoint. */
  datatype DailyStat = DailyStat(date: int, status: string, count: int)
}
