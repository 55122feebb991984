/** The codes of rtps_test_utilities.py and the names they are printed with. */
module ReturnCodes {
  datatype ReturnCode =
    | Ok | TopicNotCreated | ReaderNotCreated | WriterNotCreated | FilterNotCreated
    | IncompatibleQos | ReaderNotMatched | DataNotReceived | DataNotSent | DataNotCorrect
    | ReceivingFromOne | ReceivingFromBoth | DeadlineMissed
    | OrderedAccessInstance | OrderedAccessTopic | PubUnsupportedFeature | SubUnsupportedFeature

  function Name(code: ReturnCode): string {
    match code
    case Ok => "OK"
    case TopicNotCreated => "TOPIC_NOT_CREATED"
    case ReaderNotCreated => "READER_NOT_CREATED"
    case WriterNotCreated => "WRITER_NOT_CREATED"
    case FilterNotCreated => "FILTER_NOT_CREATED"
    case IncompatibleQos => "INCOMPATIBLE_QOS"
    case ReaderNotMatched => "READER_NOT_MATCHED"
    case DataNotReceived => "DATA_NOT_RECEIVED"
    case DataNotSent => "DATA_NOT_SENT"
    case DataNotCorrect => "DATA_NOT_CORRECT"
    case ReceivingFromOne => "RECEIVING_FROM_ONE"
    case ReceivingFromBoth => "RECEIVING_FROM_BOTH"
    case DeadlineMissed => "DEADLINE_MISSED"
    case OrderedAccessInstance => "ORDERED_ACCESS_INSTANCE"
    case OrderedAccessTopic => "ORDERED_ACCESS_TOPIC"
    case PubUnsupportedFeature => "PUB_UNSUPPORTED_FEATURE"
    case SubUnsupportedFeature => "SUB_UNSUPPORTED_FEATURE"
  }

  predicate Unsupported(code: ReturnCode) {
    code == PubUnsupportedFeature || code == SubUnsupportedFeature
  }
}
