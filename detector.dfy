/** The SDAR anomaly detectors that the change finder composes come from a foreign
    library (`anomalydetector.NewAnomalyDetector` and its `Update`). Their numerics are not
    part of this model: a detector is seen only as a stateful oracle whose score is some
    function of its construction parameters and of every input it has received. */
module Detectors {

  /** The foreign library's scoring as seen from outside: the score that a detector built
      with `(term, discount)` returns when it has been fed `inputs`, in order, the last one
      being the input of the current call. Nothing is assumed about its values; what is
      assumed is that the library is deterministic and keeps no other state, so a score is
      fixed by the parameters and the inputs up to that call. */
  type Sdar = (int, real, seq<real>) -> real

  /** The parameters a detector is built with, together with the library that scores it. */
  datatype DetectorSpec = DetectorSpec(library: Sdar, term: int, discount: real)
  {
    /** The score returned for the last of `inputs`. */
    function Score(inputs: seq<real>): real {
      library(term, discount, inputs)
    }
  }

  /** One detector object; its internal state is abstracted to the inputs it received. */
  class Detector {
    const Library: Sdar
    const Term: int
    const Discount: real
    var Log: seq<real>

    function Spec(): DetectorSpec {
      DetectorSpec(Library, Term, Discount)
    }

    /** `anomalydetector.NewAnomalyDetector(term, discount)`: a detector that has seen nothing. */
    constructor (library: Sdar, term: int, discount: real)
      ensures Spec() == DetectorSpec(library, term, discount)
      ensures Log == []
    {
      Library, Term, Discount := library, term, discount;
      Log := [];
    }

    /** Feeds one value; the score depends on everything fed so far. */
    method Update(x: real) returns (score: real)
      modifies this
      ensures Log == old(Log) + [x]
      ensures score == Spec().Score(Log)
    {
      Log := Log + [x];
      score := Library(Term, Discount, Log);
    }
  }
}
