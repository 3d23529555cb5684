/** An append-only record of what happened, newest entry outermost. */
module Histories {

  datatype History<T> = Start | Then(past: History<T>, last: T)
}
