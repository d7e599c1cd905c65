/** The enumerations of the listing table. */
module ListingTypes {

  datatype ListingStatus = PENDING | APPROVED | REJECTED | DELETED

  datatype ModerationStatus = PENDING | APPROVED | CHANGES_REQUESTED | REJECTED | ARCHIVED

  datatype Visibility = PUBLIC | CITY_ONLY | PRIVATE

  datatype SourceType = MANUAL | SCRAPER | INTEGRATION | API_IMPORT
}
