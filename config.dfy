/** The settings of one steering task (`SteeringTaskConfig` in userbot.py). */
module TaskConfigs {

  /**
   * Every field of the source dataclass. `forwardDelay` is the float
   * `forward_delay`, kept as an exact real; `forwardMode` is `'copy'` or
   * anything else (forward).
   */
  datatype SteeringTaskConfig = SteeringTaskConfig(
    taskId: string,
    name: string,
    sourceChat: string,
    targetChat: string,
    enabled: bool,
    forwardDelay: real,
    maxRetries: int,
    forwardMode: string,
    // message type filters
    forwardText: bool,
    forwardPhotos: bool,
    forwardVideos: bool,
    forwardMusic: bool,
    forwardAudio: bool,
    forwardVoice: bool,
    forwardVideoMessages: bool,
    forwardFiles: bool,
    forwardLinks: bool,
    forwardGifs: bool,
    forwardContacts: bool,
    forwardLocations: bool,
    forwardPolls: bool,
    forwardStickers: bool,
    forwardRound: bool,
    forwardGames: bool,
    // header and footer
    headerEnabled: bool,
    footerEnabled: bool,
    headerText: string,
    footerText: string,
    // content filtering
    blacklistEnabled: bool,
    whitelistEnabled: bool,
    blacklistWords: string,
    whitelistWords: string,
    // text cleaning
    cleanLinks: bool,
    cleanButtons: bool,
    cleanHashtags: bool,
    cleanFormatting: bool,
    cleanEmptyLines: bool,
    cleanLinesWithWords: bool,
    cleanWordsList: string,
    // custom buttons
    buttonsEnabled: bool,
    button1Text: string,
    button1Url: string,
    button2Text: string,
    button2Url: string,
    button3Text: string,
    button3Url: string,
    // text replacement
    replacerEnabled: bool,
    replacements: string)
}
