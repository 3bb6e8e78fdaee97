/**
 * The state of the note reader component and the transitions its buttons,
 * its text box and the speech host trigger.
 *
 * The host's speech synthesizer is represented by whether it exists
 * (`hasSpeech`) and by the log of the requests the component sends it.
 */
module NoteReader {
  import opened JsText
  import opened Summarizer

  /** A request sent to the speech synthesizer: start one utterance of the
      given text, or cancel what is being spoken. */
  datatype SpeechRequest = Speak(text: string) | Cancel

  /** A request that does not start an utterance of blank text. */
  predicate Audible(r: SpeechRequest)
  {
    r.Speak? ==> !IsBlank(r.text)
  }

  /** No request in the log starts an utterance of blank text. */
  ghost predicate AllAudible(log: seq<SpeechRequest>)
  {
    forall i :: 0 <= i < |log| ==> Audible(log[i])
  }

  lemma AppendAudible(log: seq<SpeechRequest>, r: SpeechRequest)
    requires AllAudible(log) && Audible(r)
    ensures AllAudible(log + [r])
  {
    var l := log + [r];
    forall i | 0 <= i < |l| ensures Audible(l[i]) {
      if i < |log| { assert l[i] == log[i]; }
    }
  }

  class App {
    var notes: string
    var summary: string
    var speaking: bool
    var summarizing: bool

    /** Whether the browser offers speech synthesis. */
    const hasSpeech: bool

    /** Every request sent to the speech synthesizer, oldest first. */
    ghost var requests: seq<SpeechRequest>

    /** Between events: no summary is being computed, nothing is spoken or
        requested without a synthesizer, a running utterance is the last
        request sent, and no utterance of blank text was ever started. */
    ghost predicate Valid()
      reads this
    {
      && !summarizing
      && (!hasSpeech ==> !speaking && requests == [])
      && (speaking ==> requests != [] && requests[|requests| - 1].Speak?)
      && AllAudible(requests)
    }

    /** The component as first rendered: empty notes and summary, silent. */
    constructor (hasSpeech: bool)
      ensures Valid()
      ensures this.hasSpeech == hasSpeech
      ensures notes == [] && summary == [] && !speaking && !summarizing && requests == []
    {
      this.hasSpeech := hasSpeech;
      notes, summary := [], [];
      speaking, summarizing := false, false;
      requests := [];
    }

    /** The text box's change handler: the notes are replaced wholesale and
        nothing else changes; an existing summary is left as it was. */
    method EditNotes(text: string)
      requires Valid()
      modifies this`notes
      ensures Valid()
      ensures notes == text
      ensures summary == old(summary) && speaking == old(speaking) && requests == old(requests)
    {
      notes := text;
    }

    /** The shared body of the two read buttons: a stop control while
        something is spoken, otherwise one utterance of exactly `text`. */
    method ReadAloud(text: string)
      requires Valid()
      modifies this`speaking, this`requests
      ensures Valid()
      ensures !hasSpeech ==> speaking == old(speaking) && requests == old(requests)
      ensures hasSpeech && old(speaking) ==> !speaking && requests == old(requests) + [Cancel]
      ensures hasSpeech && !old(speaking) && IsBlank(text) ==>
        !speaking && requests == old(requests)
      ensures hasSpeech && !old(speaking) && !IsBlank(text) ==>
        speaking && requests == old(requests) + [Speak(text)]
    {
      var blank := Trim(text) == [];
      assert blank == IsBlank(text);
      if !hasSpeech {
        // no synthesizer: the user is told so, nothing else happens
      } else if speaking {
        AppendAudible(requests, Cancel);
        requests := requests + [Cancel];
        speaking := false;
      } else if !blank {
        AppendAudible(requests, Speak(text));
        speaking := true;
        requests := requests + [Speak(text)];
      }
    }

    /** The "Read Notes Aloud" / "Stop Reading" button. */
    method ReadNotes()
      requires Valid()
      modifies this`speaking, this`requests
      ensures Valid()
      ensures !hasSpeech ==> speaking == old(speaking) && requests == old(requests)
      ensures hasSpeech && old(speaking) ==> !speaking && requests == old(requests) + [Cancel]
      ensures hasSpeech && !old(speaking) && IsBlank(notes) ==>
        !speaking && requests == old(requests)
      ensures hasSpeech && !old(speaking) && !IsBlank(notes) ==>
        speaking && requests == old(requests) + [Speak(notes)]
    {
      ReadAloud(notes);
    }

    /** The "Read Summary Aloud" button. While the notes are being read it
        stops them, like the notes button does. */
    method ReadSummary()
      requires Valid()
      modifies this`speaking, this`requests
      ensures Valid()
      ensures !hasSpeech ==> speaking == old(speaking) && requests == old(requests)
      ensures hasSpeech && old(speaking) ==> !speaking && requests == old(requests) + [Cancel]
      ensures hasSpeech && !old(speaking) && IsBlank(summary) ==>
        !speaking && requests == old(requests)
      ensures hasSpeech && !old(speaking) && !IsBlank(summary) ==>
        speaking && requests == old(requests) + [Speak(summary)]
    {
      ReadAloud(summary);
    }

    /** The "Summarize Notes" button: the summary is replaced by the summary
        of the current notes; the notes, the speech state and the log are
        left alone, and the busy flag is down again afterwards. */
    method SummarizeNotes()
      requires Valid()
      modifies this`summary, this`summarizing
      ensures Valid()
      ensures summary == Summarize(notes)
      ensures !summarizing
      ensures notes == old(notes) && speaking == old(speaking) && requests == old(requests)
    {
      summarizing := true;
      summary := Summarize(notes);
      summarizing := false;
    }

    /** The host's end-of-utterance signal: speaking stops, nothing is sent. */
    method UtteranceEnded()
      requires Valid()
      modifies this`speaking
      ensures Valid()
      ensures !speaking && requests == old(requests)
    {
      speaking := false;
    }
  }

  /** A session: read the notes, summarize them meanwhile, stop the notes
      with the summary button, read the summary, then blank the notes. */
  method Session(text: string)
    requires !IsBlank(text)
  {
    var app := new App(true);
    app.EditNotes(text);
    app.ReadNotes();
    assert app.speaking && app.requests == [Speak(text)];
    app.SummarizeNotes();
    SummaryEmptyIffBlank(text);
    var summary := Summarize(text);
    app.ReadSummary();
    assert !app.speaking && app.requests == [Speak(text), Cancel];
    app.ReadSummary();
    assert app.speaking && app.requests == [Speak(text), Cancel, Speak(summary)];
    app.UtteranceEnded();
    app.EditNotes(" \n\t");
    app.ReadNotes();
    assert !app.speaking && |app.requests| == 3;
    assert app.summary == summary;
  }

  /** Without a synthesizer the read buttons change nothing. */
  method SilentSession(text: string)
  {
    var app := new App(false);
    app.EditNotes(text);
    app.ReadNotes();
    app.SummarizeNotes();
    app.ReadSummary();
    assert !app.speaking && app.requests == [];
  }
}
