/** The wheelchair availability of the transit model, shared by the KV1 and NeTEx IDF readers. */
module Availabilities {
  datatype Availability = InformationNotAvailable | Available | NotAvailable
}
