/** The program's payload and response types: IQueueItem, IQueueResponse and CsvPayloadDataModel. */
module Model {

  /** An IQueueItem as ProcessQueueItem sees it. A FileQueueModel and a ConsoleQueueModel
      each carry one message; `OtherQueueItem` stands for null and for any other
      implementation, which both downcasts turn into null. */
  datatype QueueItem = FileQueueModel(message: string) | ConsoleQueueModel(message: string) | OtherQueueItem

  /** The IQueueResponse each handler returns: a FileQueueResponseModel or a
      ConsoleQueueResponseModel. Neither carries data. */
  datatype QueueResponse = FileQueueResponse | ConsoleQueueResponse

  /** CsvPayloadDataModel: one CSV row, its queue type and its payload. */
  datatype CsvPayload = CsvPayload(Type: string, Payload: string)
}
