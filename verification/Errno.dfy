/** The error numbers that calls return negated. */
module Errno {
  const ENOENT := 2
  const E2BIG := 7
  const ENOMEM := 12
  const EEXIST := 17
  const EINVAL := 22
  const ELOOP := 40
  const ENOTSUP := 95
}
