/** The part of an HTTP response the core decides: a status code and a message. */
module Http {

  datatype Reply = Reply(status: nat, message: string)
}
