/** The site addresses the scraper builds its URLs from. */
module Consts {
  const BASE_URL: string := "https://hanime1.me"
  const VIDEO_URL_PREFIX: string := BASE_URL + "/watch?v="
  const SEARCH_URL: string := BASE_URL + "/search"
}
