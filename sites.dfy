/**
 * One site entry of the site configuration. Every key is read as text;
 * a missing key and an empty value are both "".
 */
module Sites {

  datatype SiteConfig = SiteConfig(
    baseUrl: string,
    sheet: string,
    urlPattern: string,
    productUrlColumn: string,
    searchUrl: string,
    upcColumn: string,
    numberColumn: string,
    nameColumn: string)
}
