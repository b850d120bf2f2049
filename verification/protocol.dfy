/** The fixed strings of the webhook protocol (api/index.ts:106, 195-207). */
module Protocol {

  /** The only content type the webhook handles; compared with `===`. */
  const JsonContentType: string := "application/json"

  /** The message body that asks for a summary. */
  const Sentinel: string := "{{# summarize #}}"

  /** First line of every delivered summary; bodies starting with it are echoes. */
  const SummaryHeader: string := "*_Résumé des messages de WhatsApp_*"

  /** Sender suffix of broadcast channels, whose messages are never stored. */
  const NewsletterSuffix: string := "@newsletter"
}
