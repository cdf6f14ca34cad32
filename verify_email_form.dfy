/**
 * The six-slot code input of client/src/components/VerifyEmail.jsx: typing into one slot,
 * pasting a whole code, and the length check before `verifyEmail` is called.
 */
module VerifyEmailForm {
  import opened Wrappers
  import opened Text

  /** The number of slots, and the length of a complete code. */
  const CodeLength: nat := 6

  /** The initial state: six empty slots. */
  function Blank6(): (r: seq<string>)
    ensures |r| == CodeLength && forall i :: 0 <= i < |r| ==> r[i] == ""
  {
    ["", "", "", "", "", ""]
  }

  /**
   * `handleInputChange(index, value)`: a value that is not all digits is ignored; the empty
   * value clears the slot.
   */
  function InputChange(code: seq<string>, index: nat, value: string): (r: seq<string>)
    requires |code| == CodeLength && index < CodeLength
    ensures |r| == CodeLength
    ensures !AllDigits(value) ==> r == code
    ensures AllDigits(value) ==> r[index] == value
    ensures forall j :: 0 <= j < CodeLength && j != index ==> r[j] == code[j]
  {
    if !AllDigits(value) then code else code[index := value]
  }

  /** `handlePaste`: exactly six digits fill all six slots in order; anything else is ignored. */
  function Paste(code: seq<string>, text: string): (r: seq<string>)
    requires |code| == CodeLength
    ensures |r| == CodeLength
    ensures |text| == CodeLength && AllDigits(text) ==> forall i :: 0 <= i < CodeLength ==> r[i] == [text[i]]
    ensures !(|text| == CodeLength && AllDigits(text)) ==> r == code
  {
    if |text| == CodeLength && AllDigits(text) then Split(text) else code
  }

  /** `text.split("")`. */
  function Split(text: string): (r: seq<string>)
    ensures |r| == |text| && forall i :: 0 <= i < |text| ==> r[i] == [text[i]]
  {
    seq(|text|, i requires 0 <= i < |text| => [text[i]])
  }

  /** `verificationCode.join("")`. */
  function Join(code: seq<string>): string
  {
    if |code| == 0 then "" else code[0] + Join(code[1..])
  }

  /** Joining the one-character pieces of a text gives the text back. */
  lemma {:induction false} JoinSplit(text: string)
    ensures Join(Split(text)) == text
  {
    if |text| > 0 {
      assert Split(text)[1..] == Split(text[1..]);
      JoinSplit(text[1..]);
      assert text == [text[0]] + text[1..];
    }
  }

  /** Each slot holds at most one digit, as the inputs' `maxLength` allows. */
  predicate WellFormed(code: seq<string>)
  {
    |code| == CodeLength && forall i :: 0 <= i < |code| ==> |code[i]| <= 1 && AllDigits(code[i])
  }

  /** Typing at most one character, and pasting, keep every slot a single digit or empty. */
  lemma EditsKeepWellFormed(code: seq<string>, index: nat, value: string, text: string)
    requires WellFormed(code) && index < CodeLength && |value| <= 1
    ensures WellFormed(InputChange(code, index, value))
    ensures WellFormed(Paste(code, text))
  {
  }

  /** A joined code of one-character slots has six characters exactly when no slot is empty. */
  lemma {:induction false} JoinFull(code: seq<string>)
    requires forall i :: 0 <= i < |code| ==> |code[i]| <= 1
    ensures |Join(code)| <= |code|
    ensures |Join(code)| == |code| <==> forall i :: 0 <= i < |code| ==> code[i] != ""
  {
    if |code| > 0 {
      JoinFull(code[1..]);
      assert forall i :: 1 <= i < |code| ==> code[1..][i - 1] == code[i];
    }
  }

  /** `handleSubmit`: the joined code is sent only when it has six characters. */
  function Submit(code: seq<string>): (r: Option<string>)
    ensures r.Some? <==> |Join(code)| == CodeLength
    ensures r.Some? ==> r.value == Join(code)
  {
    var joined := Join(code);
    if |joined| != CodeLength then None else Some(joined)
  }

  /** With well-formed slots, submitting goes ahead exactly when all six are filled. */
  lemma SubmitNeedsAllSlots(code: seq<string>)
    requires WellFormed(code)
    ensures Submit(code).Some? <==> forall i :: 0 <= i < CodeLength ==> code[i] != ""
  {
    JoinFull(code);
  }

  /** Pasting a six-digit code and submitting sends exactly that code. */
  lemma PasteThenSubmit(code: seq<string>, text: string)
    requires |code| == CodeLength && |text| == CodeLength && AllDigits(text)
    ensures Submit(Paste(code, text)) == Some(text)
  {
    JoinSplit(text);
  }
}
