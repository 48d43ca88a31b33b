/** Enumerations of padawan/atlas/contracts.py. */
module Contracts {
  datatype SuiteStatus = Planned | Ready | Sealed | Blocked | Retired

  datatype EvaluationClass = Development | AdaptiveSearch | Challenge | SealedPromotion
}
