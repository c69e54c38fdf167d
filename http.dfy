/** The HTTP-level outcomes that the services and controllers produce. */
module Http {
  import opened Common
  import opened Js

  /** The exceptions the handlers raise, as the client sees them. */
  datatype HttpError =
    | BadRequest(message: string)           // 400, `BadRequestException`
    | NotFound(message: string)             // 404, `NotFoundException`
    | UnprocessableEntity(message: string)  // 422, `UnprocessableEntityException`
    | CollaboratorError                     // an exception raised by a repository or service that is not modelled, propagated unchanged
    | InternalError                         // 500, an uncaught TypeError or store failure

  /** What a handler answers when it does not fail. */
  datatype Reply =
    | Serialized(key: string, data: Object, message: string, id: Option<string>)  // `OkException`
    | Response(key: string, data: Object)                                        // `serializerService.serializeResponse(key, data)`
    | Status(message: string, status: int)                                       // `new HttpException(message, status)`

}
