/** The bot's fixed limits and scores, and the defaults of its settings. */
module Constants {

  // search and list replies
  const MAX_SEARCH_RESULTS: nat := 8
  const MAX_EPISODE_BUTTONS: nat := 20
  const MAX_TITLE_LENGTH: nat := 30
  const TITLE_TRUNCATE_LENGTH: nat := 27
  const EPISODES_PER_ROW: nat := 5
  const MAX_MESSAGE_LENGTH: nat := 4000
  const TRUNCATED_MESSAGE_LENGTH: nat := 3800
  const MAX_EPISODE_LIST_LENGTH: nat := 3000
  const TRUNCATED_EPISODE_LIST_LENGTH: nat := 2900

  // downloads and uploads
  const DEFAULT_QUALITY: string := "360"
  const DEFAULT_AUDIO: string := "jpn"
  const PROGRESS_UPDATE_INTERVAL: int := 5

  // ledger queries
  const DEFAULT_QUERY_LIMIT: nat := 50
  const EXTENDED_QUERY_LIMIT: nat := 200
  const MAX_QUERY_LIMIT: nat := 1000

  // fuzzy scoring
  const EXACT_MATCH_SCORE: int := 1000
  const POSITION_PENALTY: int := 2
  const CHAR_MATCH_SCORE: int := 10

  // settings defaults
  const FILE_RETENTION_SECONDS: int := 7 * 24 * 3600
  const DELETE_AFTER_UPLOAD: bool := true
  const VAULT_CHANNEL_ID: int := 0

  /** The age after which the cached catalogue is refreshed: one day. */
  const CACHE_FRESHNESS_SECONDS: int := 24 * 3600

  /** The pause between two retention sweeps. */
  const CLEANUP_INTERVAL_SECONDS: int := 3600
}
