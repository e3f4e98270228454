/** The error numbers that are returned negated. */
module Errno {
  const ENOMEM := 12
  const EINVAL := 22
}
