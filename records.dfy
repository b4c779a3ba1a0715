/** The plain data that flows between the archive manager, the HTTP handlers and the
    ingestion tools: job status, job ids, the exceptions the handlers catch, and the rows
    of the Images and UserQueries tables. */
module Records {
  import opened Wrappers
  import opened Calendar

  /** ArchiveStatus, with its numeric values. */
  datatype ArchiveStatus = Failed | Unknown | Pending | Canceled | Processing | Completed {
    function Code(): int {
      match this
      case Failed => -1
      case Unknown => 0
      case Pending => 1
      case Canceled => 2
      case Processing => 3
      case Completed => 4
    }
  }

  /** EF Core translates Skip(offset).Take(count) into SQL Server's OFFSET offset ROWS
      FETCH NEXT count ROWS ONLY, which fails for a negative offset (error 10742) and for
      a row count below 1 (error 10744). */
  predicate OffsetFetchRejected(offset: int, count: int) {
    offset < 0 || count < 1
  }

  const NegativeOffsetMessage := "The offset specified in a OFFSET clause may not be negative."
  const FetchCountMessage := "The number of rows provided for a FETCH clause must be greater then zero."

  /** The error of a rejected OFFSET/FETCH, the offset's when both are wrong. */
  function OffsetFetchError(offset: int, count: int): (e: Exception)
    requires OffsetFetchRejected(offset, count)
  {
    if offset < 0 then Sql(NegativeOffsetMessage) else Sql(FetchCountMessage)
  }

  /** A System.Guid, identified by its canonical "D" text form. */
  datatype Guid = Guid(text: string)

  const EmptyGuid: Guid := Guid("00000000-0000-0000-0000-000000000000")

  /** The exceptions the modelled code throws or catches. */
  datatype Exception =
    | KeyNotFound(message: string)
    | InvalidOperation(message: string)
    | FileNotFound(message: string)
    | IndexOutOfRange
    | NullReference
    | ArgumentNull
    | ArgumentOutOfRange
    | Format
    | EndOfStream
    | Overflow
    | IO(message: string)
    | Sql(message: string)                     // an error SQL Server reports for a statement
  {
    /** Exception.Message: the text given when it was thrown, or the runtime's default
        text for the exceptions the runtime throws itself. */
    function Message(): string {
      match this
      case KeyNotFound(m) => m
      case InvalidOperation(m) => m
      case FileNotFound(m) => m
      case IO(m) => m
      case Sql(m) => m
      case IndexOutOfRange => "Index was outside the bounds of the array."
      case NullReference => "Object reference not set to an instance of an object."
      case ArgumentNull => "Value cannot be null."
      case ArgumentOutOfRange => "Specified argument was out of the range of valid values."
      case Format => "The input string was not in a correct format."
      case EndOfStream => "Unable to read beyond the end of the stream."
      case Overflow => "Value was either too large or too small for an Int64."
    }
  }

  /** A row of the Images table as the current API sees it. */
  datatype Image = Image(
    id: int,
    name: Option<string>,
    filePath: Option<string>,
    dateTime: DateTime,
    unixTime: int,
    siteName: Option<string>,
    siteNumber: Option<int>,
    cameraNumber: int,
    cameraPositionNumber: Option<int>,
    cameraPositionName: Option<string>,
    weatherPrediction: Option<string>,
    weatherPredictionPercent: Option<real>,
    snowPrediction: Option<string>,
    snowPredictionPercent: Option<real>)

  /** A row of the Images table as the older API generation sees it. */
  datatype LegacyImage = LegacyImage(id: int, filePath: Option<string>, dateTime: DateTime, site: Option<string>)

  /** A row of the UserQueries table. */
  datatype UserQuery = UserQuery(queryId: int, userId: string, parameters: string, timestamp: DateTime)
}
