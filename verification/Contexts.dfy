// The context that a caller passes down: it may be cancelled at any moment, if
// it can be cancelled at all.
module Contexts {
  datatype Context = Context(cancellable: bool)
}
