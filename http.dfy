/** The `HTTPException` that FastAPI routes raise: a status code and a detail message. */
module Http {

  datatype HttpError = HttpError(status: int, detail: string)
}
