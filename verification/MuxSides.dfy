/** The two ends of a tcpmux link: the one that opens connections and the one that accepts them. */
module MuxSides {
  datatype Side = Mux | Demux {
    function Other(): Side { if this == Mux then Demux else Mux }
  }
}
