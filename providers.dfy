/**
 * The two model-backed helpers of `SearchEngine`. The model calls
 * (`ollama.embeddings`, `ollama.chat`) and the file reader are oracles; what
 * is modelled is the input cleaning around them and the fallback strings.
 */
module Providers {
  import opened Wrappers
  import opened DocIndex
  import opened TextRules

  /** The single user message `_get_summary` sends to the chat model: the
      fixed instruction followed by an excerpt of the text. The chat model is
      an oracle over these messages; `RequestText` is the content sent. */
  datatype ChatRequest = SummaryRequest(excerpt: string)

  /** The outside world a scan consults: the file reader (`read_file_content`,
      which never raises), the embedding model (`None` when the call fails) and
      the chat model (`None` when the call fails). */
  datatype Oracles = Oracles(
    read: string -> string,
    embed: string -> Option<Vector>,
    chat: ChatRequest -> Option<string>)

  const NoContent: string := "Kein Inhalt."
  const SummaryFailed: string := "Zusammenfassung fehlgeschlagen."
  const SummaryInstruction: string := "Fasse diesen Inhalt extrem kurz (max 1 Satz) auf Deutsch zusammen:\n"

  /** The message content: the instruction, then the excerpt. */
  function RequestText(r: ChatRequest): string {
    SummaryInstruction + r.excerpt
  }

  /** Distinct requests are distinct texts, so an oracle over requests is as
      general as one over message texts. */
  lemma RequestTextInjective(r1: ChatRequest, r2: ChatRequest)
    ensures RequestText(r1) == RequestText(r2) <==> r1 == r2
  {
    if RequestText(r1) == RequestText(r2) {
      assert r1.excerpt == RequestText(r1)[|SummaryInstruction|..];
    }
  }

  /** The prompt `_get_embedding` sends: `text[:8000].replace("\n", " ")`. */
  function EmbeddingPrompt(text: string): (r: string)
    ensures |r| == Min(|text|, 8000)
    ensures forall i :: 0 <= i < |r| ==> r[i] != '\n'
    ensures forall i :: 0 <= i < |r| && text[i] != '\n' ==> r[i] == text[i]
    ensures forall i :: 0 <= i < |r| && text[i] == '\n' ==> r[i] == ' '
  {
    ReplaceNewlines(text[..Min(|text|, 8000)])
  }

  /** `_get_embedding(text)`: the embedding of the cleaned prompt. */
  function Embed(text: string, embed: string -> Option<Vector>): Option<Vector> {
    embed(EmbeddingPrompt(text))
  }

  /** The request `_get_summary` sends for a text of 20 characters or more:
      the first 2500 characters. */
  function SummaryRequestFor(text: string): ChatRequest {
    SummaryRequest(text[..Min(|text|, 2500)])
  }

  /** `_get_summary(text)`. */
  function Summarize(text: string, chat: ChatRequest -> Option<string>): string {
    if |text| < 20 then NoContent
    else match chat(SummaryRequestFor(text))
      case Some(reply) => reply
      case None => SummaryFailed
  }

  /** Whatever the chat model does, a text shorter than 20 characters is
      summarised as "Kein Inhalt.": the model is not consulted. */
  lemma ShortTextSkipsModel(text: string, chat1: ChatRequest -> Option<string>, chat2: ChatRequest -> Option<string>)
    requires |text| < 20
    ensures Summarize(text, chat1) == Summarize(text, chat2) == NoContent
  {
  }

  /** The summary is never missing: it is the model's reply to the prompt built
      from the first 2500 characters, or "Zusammenfassung fehlgeschlagen." when
      that call fails. */
  lemma SummaryOutcomes(text: string, chat: ChatRequest -> Option<string>)
    requires |text| >= 20
    ensures chat(SummaryRequestFor(text)).None? ==> Summarize(text, chat) == SummaryFailed
    ensures chat(SummaryRequestFor(text)).Some? ==> Summarize(text, chat) == chat(SummaryRequestFor(text)).value
  {
  }

  /** Only the first 2500 characters of a text reach the chat model. */
  lemma SummarySeesPrefixOnly(a: string, b: string, chat: ChatRequest -> Option<string>)
    requires |a| >= 20 && |b| >= 20
    requires a[..Min(|a|, 2500)] == b[..Min(|b|, 2500)]
    ensures Summarize(a, chat) == Summarize(b, chat)
  {
    assert SummaryRequestFor(a) == SummaryRequestFor(b);
  }

  /** Only the first 8000 characters reach the embedding model, and a newline
      and a space there are the same to it. */
  lemma {:induction false} EmbeddingSeesPrefixOnly(a: string, b: string, embed: string -> Option<Vector>)
    requires Min(|a|, 8000) == Min(|b|, 8000)
    requires forall i :: 0 <= i < Min(|a|, 8000) ==>
      (if a[i] == '\n' then ' ' else a[i]) == (if b[i] == '\n' then ' ' else b[i])
    ensures Embed(a, embed) == Embed(b, embed)
  {
    var pa, pb := EmbeddingPrompt(a), EmbeddingPrompt(b);
    assert |pa| == |pb|;
    forall i | 0 <= i < |pa| ensures pa[i] == pb[i] {
      assert (if a[i] == '\n' then ' ' else a[i]) == (if b[i] == '\n' then ' ' else b[i]);
    }
    assert pa == pb;
  }
}
