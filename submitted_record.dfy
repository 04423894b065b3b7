/** The data import record the form submits in batch mode: the record built
    from the sections' field values, completed with the batch lookup and,
    when a row is being updated, with that row's Id. */
module SubmittedRecord {
  import opened FormTypes

  /** The API name of the data import record's batch lookup field. */
  const BatchLookupField: string := "NPSP_Data_Import_Batch__c"

  /** The API name of the data import record's status field. */
  const StatusField: string := "Status__c"

  /** The record getData returns for the record `built` from the sections,
      the form's batch id and the row loaded for update, if any. */
  function CompletedRecord(built: Record, batchId: JsValue, dataRow: Option<Record>): Record {
    var withBatch := if !Truthy(Get(built, BatchLookupField)) then built[BatchLookupField := batchId] else built;
    if dataRow.Some? then withBatch["Id" := Get(dataRow.value, "Id")] else withBatch
  }
}
