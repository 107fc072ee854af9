/** The risk levels of the program. */
module Risks {
  datatype Risk = Low | Medium | High
}
