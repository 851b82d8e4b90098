/** Identifiers, optional values and the error taxonomy shared by every
    transaction of the reservation and pricing core. */
module Types {

  /** Database identity values (`Long` ids). */
  type Id = int

  /** A nullable column or parameter. */
  datatype Option<+T> = None | Some(value: T)

  /** The exceptions the transactions throw. Each one aborts the enclosing
      transaction, so the store is left as it was. The first group is thrown
      as `IllegalArgumentException`, the second as `IllegalStateException`. */
  datatype Error =
    // IllegalArgumentException
    | CartNotFound
    | VariantNotFound
    | ProductNotFound
    | CartItemNotFound
    | ReservationNotFound
    | InvalidQuantity
    | UserIdRequired
    // IllegalStateException
    | InsufficientStock
    | NoActiveReservations
    | AlreadyReleased
    | WrongCart

  /** The outcome of a transaction: a value (usually the new store), or the
      error that rolled it back. */
  datatype Result<+T> = Success(value: T) | Failure(error: Error)
}
