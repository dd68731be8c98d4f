// An index entry (src/importer.cpp, src/hash/hash.cpp): a key's hash, and where in the file it leads.
module Entries {
  datatype Entry = Entry(hash: nat, offset: nat)
}
