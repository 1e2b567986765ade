/** Names and numbers shared by the server, the client and the Kafka writer. */
module Constants {

  const FILE_NAMES_GPX: seq<string> := ["fuad", "neil"]

  const COMMAND_NOUN_KAFKA: string := "kafka"
  const COMMAND_NOUN_SPEEDO: string := "speedo"
  const COMMAND_NOUN_WORDCOUNT: string := "wordcount"
  const COMMAND_VERB_START: string := "start"
  const COMMAND_VERB_STOP: string := "stop"

  const IMAP_NAME_COMMAND: string := "command"
  const IMAP_NAME_HAMLET: string := "hamlet"
  const IMAP_NAME_POSITION: string := "position"
  const IMAP_NAME_SPEED: string := "speed"
  const IMAP_NAME_WORDS: string := "words"

  const IMAP_NAMES: seq<string> :=
    [IMAP_NAME_COMMAND, IMAP_NAME_HAMLET, IMAP_NAME_POSITION, IMAP_NAME_SPEED, IMAP_NAME_WORDS]

  const TOPIC_NAME_GPX_PARTITION_COUNT: int := 3
}
