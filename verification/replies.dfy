/**
 * The replies a handler hands to the response interface. The formatting
 * functions themselves (`embedis_response_simple`, `embedis_response_error`)
 * are outside this model: a handler's observable behaviour is the one reply it
 * produces.
 */
module Replies {
  /**
   * `EMBEDIS_OK` and `EMBEDIS_UNKNOWN_COMMAND`. Their numeric values are
   * defined in embedis.h, which is not part of this model, so they are
   * integer constants with no value given: nothing here fixes whether either
   * equals 0 or whether they differ from each other.
   */
  const EmbedisOk: int
  const EmbedisUnknownCommand: int

  datatype Reply =
    | Simple(text: string)      // embedis_response_simple(state, text)
    | Error(code: int)          // embedis_response_error(state, code)
}
