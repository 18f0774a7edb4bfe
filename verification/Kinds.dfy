/** The types of an inode. */
module Kinds {
  datatype Kind = Free | Dir | File | Dev
}
