/** The canonical team directory both halves of the pipeline check provider identities against. */
module Directories {
  datatype Listing = Listing(providerId: string, classification: string)
  type Directory = map<(string, int), Listing>
}
