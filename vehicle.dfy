/** The vehicle description the demo form collects, its bounds and the
    enumerations its select boxes offer. */
module Vehicle {

  /** The horizon the models were trained with: a car's age is counted from it. */
  const ReferenceYear: int := 2025

  const MinYear: int := 1990
  const MaxYear: int := 2025
  const MaxOdometer: int := 300000

  const Brands: set<string> :=
    {"ford", "chevrolet", "toyota", "honda", "nissan", "jeep", "ram", "gmc", "bmw", "dodge",
     "mercedes-benz", "hyundai", "subaru", "volkswagen", "kia", "lexus", "audi", "cadillac",
     "acura", "buick", "other"}
  const BodyTypes: set<string> :=
    {"sedan", "SUV", "pickup", "truck", "coupe", "hatchback", "convertible", "van", "wagon", "other"}
  const Fuels: set<string> := {"gas", "diesel", "hybrid", "electric", "other"}
  const Transmissions: set<string> := {"automatic", "manual", "other"}
  const Drives: set<string> := {"4wd", "rwd", "fwd"}

  /** One submission of the form. */
  datatype RawInput = RawInput(
    year: int,
    odometer: int,
    manufacturer: string,
    fuel: string,
    transmission: string,
    drive: string,
    bodyType: string)

  /** What the form's widgets let through: bounded numbers, listed categories. */
  predicate FormValid(x: RawInput) {
    && MinYear <= x.year <= MaxYear
    && 0 <= x.odometer <= MaxOdometer
    && x.manufacturer in Brands
    && x.fuel in Fuels
    && x.transmission in Transmissions
    && x.drive in Drives
    && x.bodyType in BodyTypes
  }

  /** The derived age feature. */
  function CarAge(year: int): (age: int)
    ensures MinYear <= year <= MaxYear ==> 0 <= age <= MaxYear - MinYear
  {
    ReferenceYear - year
  }

  /** The form's year bounds are exactly the ages 0 to 35; the oldest year
      gives 35 and the newest gives 0, and distinct years give distinct ages. */
  lemma AgeRange(year: int)
    ensures MinYear <= year <= MaxYear <==> 0 <= CarAge(year) <= 35
    ensures CarAge(year) == 35 <==> year == MinYear
    ensures CarAge(year) == 0 <==> year == MaxYear
    ensures forall other: int :: CarAge(other) == CarAge(year) ==> other == year
  {
  }
}
