/** The validation branch of the `/submit` endpoint: a user's corrected
    (text, name, title, type) sample is checked and, when accepted, stored
    under its text. The store itself is outside the model; `stored` records
    whether the write happens. */
module Submission {
  import opened Options
  import opened PyStr

  datatype SubmitReply = SubmitReply(code: string, msg: string, stored: bool)

  const EmptyFieldMsg := "Name or Title can not be empty."
  const NameMissingMsg := "name dose not appear in the text!"

  function SucceedMsg(kind: string): string {
    "Succeed submit " + kind + " sample"
  }

  /** `len(s.strip()) == 0`. */
  predicate IsBlank(s: string) {
    |Strip(s, IsSpace)| == 0
  }

  /** The sample is accepted exactly when name and title are present and not
      blank and the name occurs in the text; otherwise the first failing check
      names the reason. A sample is stored exactly when it is accepted. */
  function Submit(text: string, name: Option<string>, title: Option<string>, kind: string): (r: SubmitReply)
    ensures r.stored <==> r.code == "ok"
    ensures r.code == "ok" || r.code == "failed"
    ensures r.code == "ok" <==>
      && name.Some? && title.Some?
      && !AllSat(name.value, IsSpace) && !AllSat(title.value, IsSpace)
      && OccursIn(name.value, text)
    ensures r.code == "ok" ==> r.msg == SucceedMsg(kind)
    ensures (name.None? || title.None? || AllSat(name.value, IsSpace) || AllSat(title.value, IsSpace))
            ==> r.msg == EmptyFieldMsg
    ensures
      && name.Some? && title.Some?
      && !AllSat(name.value, IsSpace) && !AllSat(title.value, IsSpace)
      && !OccursIn(name.value, text)
      ==> r.msg == NameMissingMsg
    ensures r.code == "failed" && r.msg != EmptyFieldMsg ==>
      && r.msg == NameMissingMsg
      && !OccursIn(name.value, text)
  {
    if name.None? || title.None? || IsBlank(name.value) || IsBlank(title.value) then
      SubmitReply("failed", EmptyFieldMsg, false)
    else if !Contains(text, name.value) then
      SubmitReply("failed", NameMissingMsg, false)
    else
      SubmitReply("ok", SucceedMsg(kind), true)
  }
}
