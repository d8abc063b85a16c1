/**
  The errors the controllers hand to Express's `next`. `AppError` is the application's own
  error (a message and an HTTP status code); the other two stand for rejections raised by
  Mongoose or MongoDB, which the global error handler turns into a response.
 */
module Errors {

  const NOT_FOUND := 404
  const BAD_REQUEST := 400

  datatype Error =
    | AppError(message: string, statusCode: int)
      /** Mongoose refused to build or save a document (a `required`, `min` or `enum` rule, or a cast). */
    | ValidationFailed
      /** MongoDB refused the query itself (a negative `skip`). */
    | QueryRejected

  const ProductNotFound: Error := AppError("Product not found", NOT_FOUND)

  const OrderNotFound: Error := AppError("Order not found", NOT_FOUND)

  function InsufficientStock(productName: string): Error {
    AppError("Insufficient stock for product " + productName, BAD_REQUEST)
  }
}
