/** The brand mapper that the product mapper and the brand operations call.
    Its source is not part of this model; it is taken to copy id and name
    behind a null guard, as the product mapper does. */
module BrandMapper {
  import opened Common
  import opened Model

  /** A brand built from its DTO is not deleted (the flag's default). */
  function BrandFromDto(b: BrandDto): Brand
  {
    Brand(b.id, false, b.name)
  }

  function BrandToDto(b: Brand): BrandDto
  {
    BrandDto(b.id, b.name)
  }

  /** convertBrandDTOToBrand: null stays null. */
  function ConvertBrandDtoToBrand(b: Option<BrandDto>): Option<Brand>
  {
    match b
    case None => None
    case Some(d) => Some(BrandFromDto(d))
  }

  /** convertBrandToBrandDTO: null stays null. */
  function ConvertBrandToBrandDto(b: Option<Brand>): Option<BrandDto>
  {
    match b
    case None => None
    case Some(e) => Some(BrandToDto(e))
  }
}
