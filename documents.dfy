/** Value types shared by the Mongoose schemas. */
module Documents {

  /** A `mongoose.Schema.ObjectId` reference: an opaque identifier generated by the store. */
  type ObjectId = nat

  /** A `Date` value, as milliseconds since the epoch. */
  type Timestamp = int

  /** One failed validator of a document: the schema path and the message it reports. */
  datatype FieldError = FieldError(path: string, message: string)

}
