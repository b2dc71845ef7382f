/** The result of looking for something in a sequence. */
module Search {
  datatype Found = None | Some(at: nat)
}
