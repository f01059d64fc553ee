/** Form definitions, and what makes one answer acceptable to one field. */
module Forms {
  import opened Values
  import opened Conditions

  datatype FieldType =
    | ShortText | LongText | Email | Phone | Number | Currency | Url | Address | Date | Time
    | SingleChoice | MultiChoice | Dropdown | YesNo | Rating | Matrix | File | SignatureAck
    | Signature | Content | Hidden | Calculated | RepeatingGroup

  datatype SetBy = Respondent | Operator | System

  datatype Choice = Choice(value: string, caption: string)

  datatype RequiredChoices = RequiredChoices(field: string, values: seq<string>)

  datatype Constraints = Constraints(
    message: Option<string>,
    min: Option<real>, max: Option<real>, scale: Option<real>, atMost: Option<string>,
    minDays: Option<int>, maxDays: Option<int>, notBefore: Option<string>,
    maxFiles: Option<nat>,
    minLength: Option<nat>, maxLength: Option<nat>, pattern: Option<string>)

  datatype Field = Field(
    key: string,
    caption: string,
    kind: FieldType,
    required: bool,
    requiredWhen: Option<Expr>,
    constraints: Constraints,
    choices: seq<Choice>,
    fields: seq<Field>,
    requiredChoices: Option<RequiredChoices>,
    setBy: Option<SetBy>)
  {
    /** Filled in after submission, never by the respondent. */
    predicate Staff() {
      setBy == Some(Operator) || setBy == Some(System)
    }

    /** Never asked, never entered, or worked out by the runtime. */
    predicate Silent() {
      kind == Hidden || kind == Calculated || kind == Content
    }
  }

  datatype Section = Section(key: string, fields: seq<string>, widths: map<string, string>, visibleWhen: Option<Expr>)

  datatype Page = Page(key: string, sections: seq<Section>, visibleWhen: Option<Expr>)

  datatype Form = Form(fields: seq<Field>, pages: seq<Page>)

  /**
   What the checks take from the JavaScript library: the regular expressions, the
   number parser, the calendar and the signature reader.
   */
  datatype Host = Host(
    isEmail: string -> bool,
    isUrl: string -> bool,
    isDate: string -> bool,
    isReceipt: string -> bool,
    matches: (string, string) -> bool,
    parseNumber: Value -> Option<real>,
    daysFromToday: (string, string) -> Option<int>,
    signatureProblem: Value -> Option<string>)

  /** What is wrong with an answer. `Custom` is the message the form's author wrote. */
  datatype Problem =
    | Custom(text: string)
    | Required(caption: string)
    | NotAnEmail | NotAUrl | NotADate | NotAChoice | NotAList | NotAnOption | NotYesNo | NotAFile
    | NotANumber(caption: string)
    | AtLeast(caption: string, bound: real)
    | AtMost(caption: string, bound: real)
    | OutsideScale(scale: real)
    | MoreThan(caption: string, other: string)
    | TooPast(caption: string)
    | TooFuture(caption: string)
    | Before(caption: string, other: string)
    | MustAccept(caption: string)
    | BadSignature(text: string)
    | TooManyFiles(max: nat)
    | AddOne(caption: string)
    | NotText(caption: string)
    | TooShort(caption: string, min: nat)
    | TooLong(caption: string, max: nat)
    | BadFormat(caption: string)
    | NoSuchRow(choice: string, caption: string)
    | FilledByStaff(caption: string)

  /** An author's empty message is falsy, so the callers drop it. */
  predicate Reported(p: Option<Problem>) {
    p.Some? && p.value != Custom("")
  }

  datatype Others = Others(answers: Answers, labels: map<string, string>)

  function LabelOf(labels: map<string, string>, key: string): string {
    if key in labels then labels[key] else key
  }

  /** `custom ?? problem`. */
  function Refuse(c: Constraints, p: Problem): Option<Problem> {
    match c.message
    case Some(text) => Some(Custom(text))
    case None => Some(p)
  }

  function ToNumber(host: Host, v: Value): Option<real> {
    if v.Num? then Some(v.n) else host.parseNumber(v)
  }

  /**
   Checks one answer. `required` is the effective requirement the caller worked
   out; `others` is the rest of the form, when the caller has one.
   */
  function CheckField(host: Host, field: Field, required: bool, value: Value, others: Option<Others>, now: string)
    : Option<Problem>
  {
    if IsBlank(value) then
      if required then Some(Required(field.caption)) else None
    else
      var c := field.constraints;
      match field.kind
      case Email => if value.Str? && host.isEmail(value.s) then None else Refuse(c, NotAnEmail)
      case Url => if value.Str? && host.isUrl(value.s) then None else Refuse(c, NotAUrl)
      case Number => CheckNumber(host, field, value, others)
      case Currency => CheckNumber(host, field, value, others)
      case Rating => CheckNumber(host, field, value, others)
      case Date => CheckDate(host, field, value, others, now)
      case SingleChoice => CheckChoice(field, value)
      case Dropdown => CheckChoice(field, value)
      case MultiChoice => CheckChoices(field, value)
      case Matrix => CheckChoices(field, value)
      case YesNo => if value.Bool? then None else Refuse(c, NotYesNo)
      case SignatureAck =>
        if !value.Bool? then Refuse(c, NotYesNo)
        else if required && !value.b then Refuse(c, MustAccept(field.caption))
        else None
      case Signature =>
        (match host.signatureProblem(value)
         case Some(text) => Refuse(c, BadSignature(text))
         case None => None)
      case File => CheckFile(host, field, value)
      case RepeatingGroup => if value.List? then None else Refuse(c, AddOne(field.caption))
      case _ => CheckText(host, field, value)
  }

  function CheckNumber(host: Host, field: Field, value: Value, others: Option<Others>): Option<Problem> {
    var c := field.constraints;
    match ToNumber(host, value)
    case None => Refuse(c, NotANumber(field.caption))
    case Some(n) =>
      if c.min.Some? && n < c.min.value then Refuse(c, AtLeast(field.caption, c.min.value))
      else if c.max.Some? && n > c.max.value then Refuse(c, AtMost(field.caption, c.max.value))
      else if field.kind == Rating && c.scale.Some? && c.scale.value != 0.0 && (n < 1.0 || n > c.scale.value) then
        Refuse(c, OutsideScale(c.scale.value))
      else if c.atMost.Some? && c.atMost.value != "" && others.Some? then
        var other := ToNumber(host, Get(others.value.answers, c.atMost.value));
        if other.Some? && n > other.value then
          Some(MoreThan(field.caption, LabelOf(others.value.labels, c.atMost.value)))
        else None
      else None
  }

  function CheckDate(host: Host, field: Field, value: Value, others: Option<Others>, now: string): Option<Problem> {
    var c := field.constraints;
    if !value.Str? || !host.isDate(value.s) then Refuse(c, NotADate)
    else
      var days := host.daysFromToday(value.s, now);
      if days.Some? && c.minDays.Some? && days.value < c.minDays.value then Refuse(c, TooPast(field.caption))
      else if days.Some? && c.maxDays.Some? && days.value > c.maxDays.value then Refuse(c, TooFuture(field.caption))
      else if c.notBefore.Some? && c.notBefore.value != "" && others.Some? then
        var other := Get(others.value.answers, c.notBefore.value);
        if other.Str? && host.isDate(other.s) && TextLess(value.s, other.s) then
          Some(Before(field.caption, LabelOf(others.value.labels, c.notBefore.value)))
        else None
      else None
  }

  predicate Allowed(field: Field, value: Value) {
    value.Str? && exists c :: c in field.choices && c.value == value.s
  }

  function CheckChoice(field: Field, value: Value): Option<Problem> {
    if Allowed(field, value) then None else Refuse(field.constraints, NotAChoice)
  }

  function CheckChoices(field: Field, value: Value): Option<Problem> {
    if !value.List? then Refuse(field.constraints, NotAList)
    else if forall v :: v in value.items ==> Allowed(field, v) then None
    else Refuse(field.constraints, NotAnOption)
  }

  function CheckFile(host: Host, field: Field, value: Value): Option<Problem> {
    var c := field.constraints;
    var files := if value.List? then value.items else [value];
    if c.maxFiles.Some? && c.maxFiles.value != 0 && |files| > c.maxFiles.value then
      Refuse(c, TooManyFiles(c.maxFiles.value))
    else if forall f :: f in files ==> f.Str? && host.isReceipt(f.s) then None
    else Refuse(c, NotAFile)
  }

  function CheckText(host: Host, field: Field, value: Value): Option<Problem> {
    var c := field.constraints;
    if !value.Str? then Refuse(c, NotText(field.caption))
    else if c.minLength.Some? && |value.s| < c.minLength.value then Refuse(c, TooShort(field.caption, c.minLength.value))
    else if c.maxLength.Some? && |value.s| > c.maxLength.value then Refuse(c, TooLong(field.caption, c.maxLength.value))
    else if c.pattern.Some? && c.pattern.value != "" && !host.matches(c.pattern.value, value.s) then
      Refuse(c, BadFormat(field.caption))
    else None
  }

  /** The keys other than its own that a field's check may read. */
  function Comparands(field: Field): set<string> {
    (if field.constraints.atMost.Some? then {field.constraints.atMost.value} else {})
    + (if field.constraints.notBefore.Some? then {field.constraints.notBefore.value} else {})
  }

  /** A check reads the rest of the form only at the fields its constraints name. */
  lemma CheckCoincides(
      host: Host, field: Field, required: bool, value: Value, a: Answers, b: Answers, labels: map<string, string>,
      now: string)
    requires Agree(Comparands(field), a, b)
    ensures CheckField(host, field, required, value, Some(Others(a, labels)), now)
            == CheckField(host, field, required, value, Some(Others(b, labels)), now)
  {
    var c := field.constraints;
    if c.atMost.Some? {
      assert c.atMost.value in Comparands(field);
    }
    if c.notBefore.Some? {
      assert c.notBefore.value in Comparands(field);
    }
  }

  /** Requiring more never clears a problem. */
  lemma RequiringMore(host: Host, field: Field, less: bool, more: bool, value: Value, others: Option<Others>, now: string)
    requires less ==> more
    requires CheckField(host, field, less, value, others, now).Some?
    ensures CheckField(host, field, more, value, others, now) == CheckField(host, field, less, value, others, now)
  {
  }
}
