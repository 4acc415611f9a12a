/** The public breed catalogue, as both the backend's breed check and the
    frontend's breed list read it. */
module Catalogue {

  /** One record of the catalogue; only `name` is read. */
  datatype BreedRecord = BreedRecord(name: string)
}
