/** The record one listing element yields: the keys of the dictionary `get_info` builds. */
module Records {
  datatype ListingRecord = ListingRecord(
    companyName: string,   // 'company_name'
    location: string,      // 'location'
    title: string,         // 'title'
    innerLink: string,     // 'inner_link'
    posted: string,        // 'posted'
    description: string)   // 'description'
}
