/** The job records fetched from the delivery service and the spreadsheet rows
    projected from them. */
module Jobs {

  /** A currency amount (order total, tip, delivery fee). The export only copies
      these values into the sheet and never computes with them. */
  type Amount

  /** One job record as the export callback receives it. */
  datatype Job = Job(
    created: string,
    deliverAfter: string,
    orderDate: string,
    id: string,
    ownerId: string,
    clientId: string,
    deliverTo: string,
    status: string,
    orderTotal: Amount,
    tip: Amount,
    deliveryFee: Amount,
    paymentMethod: string)

  /** One spreadsheet cell: a job's text field or one of its amounts. */
  datatype Cell = Text(text: string) | Money(amount: Amount)

  /** A row is the array of cell values handed to the sheet, left to right. */
  type Row = seq<Cell>

  /** The names of a job's fields, for looking a field up by name. */
  datatype FieldName =
    | Created | DeliverAfter | OrderDate | Id | OwnerId | ClientId
    | DeliverTo | Status | OrderTotal | Tip | DeliveryFee | PaymentMethod

  /** The value of the named field of `job`, as a cell. */
  function Field(job: Job, name: FieldName): Cell
  {
    match name
    case Created => Text(job.created)
    case DeliverAfter => Text(job.deliverAfter)
    case OrderDate => Text(job.orderDate)
    case Id => Text(job.id)
    case OwnerId => Text(job.ownerId)
    case ClientId => Text(job.clientId)
    case DeliverTo => Text(job.deliverTo)
    case Status => Text(job.status)
    case OrderTotal => Money(job.orderTotal)
    case Tip => Money(job.tip)
    case DeliveryFee => Money(job.deliveryFee)
    case PaymentMethod => Text(job.paymentMethod)
  }

  /** The sheet's columns, in order. */
  const Columns: seq<FieldName> :=
    [Created, Id, OwnerId, ClientId, DeliverTo, OrderTotal, Tip, DeliveryFee, PaymentMethod]

  /** The status a job must have, exactly, to be exported. */
  const CompleteStatus: string := "complete"

  predicate IsComplete(job: Job)
  {
    job.status == CompleteStatus
  }

  /** The row pushed for a complete job: column `c` holds the job's field named
      `Columns[c]`, copied unchanged. */
  function Project(job: Job): (row: Row)
    ensures |row| == |Columns| == 9
    ensures forall c :: 0 <= c < |row| ==> row[c] == Field(job, Columns[c])
  {
    [Text(job.created),
     Text(job.id),
     Text(job.ownerId),
     Text(job.clientId),
     Text(job.deliverTo),
     Money(job.orderTotal),
     Money(job.tip),
     Money(job.deliveryFee),
     Text(job.paymentMethod)]
  }

  /** Two jobs give the same row exactly when they agree on every exported
      field; the dropped fields (status, deliverAfter, orderDate) play no part. */
  lemma ProjectSameRow(a: Job, b: Job)
    ensures Project(a) == Project(b) <==>
      forall c :: 0 <= c < |Columns| ==> Field(a, Columns[c]) == Field(b, Columns[c])
  {
  }
}
