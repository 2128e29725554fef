/** The progress events the sync engine puts on its queue. */
module ProgressEvents {
  import opened Wrappers

  datatype EventType = ScanStart | ScanFile | Copy | Skip | Error | Complete

  /**
   * One progress event. The engine builds events directly, so `timestamp`
   * keeps its default `None`.
   */
  datatype ProgressEvent = ProgressEvent(eventType: EventType, folder: string, filePath: string, message: string, timestamp: Option<string>)

  /** The enum's string values. */
  function EventValue(t: EventType): (v: string)
    ensures v != ""
  {
    match t
    case ScanStart => "scan_start"
    case ScanFile => "scan_file"
    case Copy => "copy"
    case Skip => "skip"
    case Error => "error"
    case Complete => "complete"
  }

  /** The enum's values are distinct, so each value names one event type. */
  lemma EventValuesDistinct(a: EventType, b: EventType)
    ensures EventValue(a) == EventValue(b) <==> a == b
  {
  }
}
