/** Vectors of coordinates, shared by the kernels, the indexes and the quantizer. */
module Vectors {
  type Vector = seq<real>
}
