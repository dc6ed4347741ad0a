/** `CustomerCreateDtoValidator`: the FluentValidation rule chain as data, an
    evaluator with FluentValidation's semantics (every check of every rule
    runs; a null string passes every check but `NotEmpty`), and the
    per-field acceptance conditions it amounts to. The e-mail format check
    is library code and stays a parameter. */
module CustomerCreateDtoValidator {
  import opened Wrappers
  import opened Text
  import opened Calendar
  import opened Dtos
  import AutoMapperConfig

  datatype StringProperty = FirstName | LastName | Email | PhoneNumber

  datatype StringCheck = NotEmpty | MaximumLength(max: nat) | EmailAddress

  /** The checks on the `DateTime` member: `NotEmpty` (not the default
      value) and `LessThan(DateTime.Today)`. */
  datatype DateCheck = NotDefault | LessThanToday

  datatype Rule =
    | StringRule(property: StringProperty, checks: seq<StringCheck>)
    | BirthDateRule(dateChecks: seq<DateCheck>)

  datatype Violation =
    | StringViolation(property: StringProperty, check: StringCheck)
    | BirthDateViolation(dateCheck: DateCheck)

  const NameChecks: seq<StringCheck> := [NotEmpty, MaximumLength(100)]
  const EmailChecks: seq<StringCheck> := [NotEmpty, EmailAddress, MaximumLength(255)]
  const PhoneChecks: seq<StringCheck> := [MaximumLength(20)]
  const BirthDateChecks: seq<DateCheck> := [NotDefault, LessThanToday]

  /** The rules in declaration order. */
  const Rules: seq<Rule> := [
    StringRule(FirstName, NameChecks),
    StringRule(LastName, NameChecks),
    StringRule(Email, EmailChecks),
    StringRule(PhoneNumber, PhoneChecks),
    BirthDateRule(BirthDateChecks)
  ]

  function StringValue(input: CustomerCreateDto, p: StringProperty): NullableString {
    match p
    case FirstName => input.firstName
    case LastName => input.lastName
    case Email => input.email
    case PhoneNumber => input.phoneNumber
  }

  predicate StringCheckPasses(check: StringCheck, value: NullableString, isEmail: string -> bool) {
    match check
    case NotEmpty => !IsNullOrWhiteSpace(value)
    case MaximumLength(max) => value.None? || Utf16Length(value.value) <= max
    case EmailAddress => value.None? || isEmail(value.value)
  }

  predicate DateCheckPasses(check: DateCheck, value: ValidDateTime, today: ValidDate) {
    match check
    case NotDefault => value != DefaultDateTime
    case LessThanToday => Before(value, Midnight(today))
  }

  /** The failed checks of one string rule, in order. */
  function StringViolations(p: StringProperty, checks: seq<StringCheck>, value: NullableString,
                            isEmail: string -> bool): seq<Violation>
  {
    if |checks| == 0 then []
    else
      var rest := StringViolations(p, checks[1..], value, isEmail);
      if StringCheckPasses(checks[0], value, isEmail) then rest
      else [StringViolation(p, checks[0])] + rest
  }

  /** A string rule reports nothing exactly when all its checks pass; what it
      reports names its own property, and each failed check exactly once
      over the check list. */
  lemma {:induction false} StringViolationsMeaning(p: StringProperty, checks: seq<StringCheck>,
                                                   value: NullableString, isEmail: string -> bool)
    ensures var vs := StringViolations(p, checks, value, isEmail);
      |vs| == 0 <==> forall i :: 0 <= i < |checks| ==> StringCheckPasses(checks[i], value, isEmail)
    ensures forall c :: StringViolation(p, c) in StringViolations(p, checks, value, isEmail)
                        <==> c in checks && !StringCheckPasses(c, value, isEmail)
  {
    if |checks| > 0 {
      StringViolationsMeaning(p, checks[1..], value, isEmail);
      StringViolationsNameProperty(p, checks[1..], value, isEmail);
      assert forall c :: c in checks <==> c == checks[0] || c in checks[1..];
      var rest := checks[1..];
      if forall i :: 0 <= i < |rest| ==> StringCheckPasses(rest[i], value, isEmail) {
        if StringCheckPasses(checks[0], value, isEmail) {
          forall i | 0 <= i < |checks| ensures StringCheckPasses(checks[i], value, isEmail) {
            if i > 0 { assert checks[i] == rest[i - 1]; }
          }
        }
      } else {
        var i :| 0 <= i < |rest| && !StringCheckPasses(rest[i], value, isEmail);
        assert checks[i + 1] == rest[i];
      }
    }
  }

  /** Every violation a string rule reports names that rule's property. */
  lemma {:induction false} StringViolationsNameProperty(p: StringProperty, checks: seq<StringCheck>,
                                                        value: NullableString, isEmail: string -> bool)
    ensures forall v :: v in StringViolations(p, checks, value, isEmail) ==> v.StringViolation? && v.property == p
  {
    if |checks| > 0 {
      StringViolationsNameProperty(p, checks[1..], value, isEmail);
    }
  }

  /** The failed checks of the birth-date rule, in order. */
  function DateViolations(checks: seq<DateCheck>, value: ValidDateTime, today: ValidDate): seq<Violation>
  {
    if |checks| == 0 then []
    else
      var rest := DateViolations(checks[1..], value, today);
      if DateCheckPasses(checks[0], value, today) then rest
      else [BirthDateViolation(checks[0])] + rest
  }

  /** The birth-date rule reports nothing exactly when all its checks pass,
      and reports nothing but birth-date violations. */
  lemma {:induction false} DateViolationsMeaning(checks: seq<DateCheck>, value: ValidDateTime, today: ValidDate)
    ensures var vs := DateViolations(checks, value, today);
      |vs| == 0 <==> forall i :: 0 <= i < |checks| ==> DateCheckPasses(checks[i], value, today)
    ensures forall v :: v in DateViolations(checks, value, today) ==> v.BirthDateViolation?
  {
    if |checks| > 0 {
      DateViolationsMeaning(checks[1..], value, today);
      var rest := checks[1..];
      if forall i :: 0 <= i < |rest| ==> DateCheckPasses(rest[i], value, today) {
        if DateCheckPasses(checks[0], value, today) {
          forall i | 0 <= i < |checks| ensures DateCheckPasses(checks[i], value, today) {
            if i > 0 { assert checks[i] == rest[i - 1]; }
          }
        }
      } else {
        var i :| 0 <= i < |rest| && !DateCheckPasses(rest[i], value, today);
        assert checks[i + 1] == rest[i];
      }
    }
  }

  function RuleViolations(rule: Rule, input: CustomerCreateDto, today: ValidDate,
                          isEmail: string -> bool): seq<Violation> {
    match rule
    case StringRule(p, checks) => StringViolations(p, checks, StringValue(input, p), isEmail)
    case BirthDateRule(checks) => DateViolations(checks, input.birthDate, today)
  }

  /** The violations of `rules[from..]`, rule by rule in order. */
  function AllViolations(rules: seq<Rule>, from: nat, input: CustomerCreateDto, today: ValidDate,
                         isEmail: string -> bool): seq<Violation>
    decreases |rules| - from
  {
    if from >= |rules| then []
    else RuleViolations(rules[from], input, today, isEmail) + AllViolations(rules, from + 1, input, today, isEmail)
  }

  /** A first or last name: present, not blank, at most 100 UTF-16 units. */
  predicate NameAccepted(s: NullableString) {
    s.Some? && !AllWhiteSpace(s.value) && Utf16Length(s.value) <= 100
  }

  /** An e-mail: present, not blank, well-formed, at most 255 UTF-16 units. */
  predicate EmailAccepted(s: NullableString, isEmail: string -> bool) {
    s.Some? && !AllWhiteSpace(s.value) && isEmail(s.value) && Utf16Length(s.value) <= 255
  }

  /** A phone number: absent, or at most 20 UTF-16 units. */
  predicate PhoneAccepted(s: NullableString) {
    s.None? || Utf16Length(s.value) <= 20
  }

  /** A birth date: not `default(DateTime)` and strictly before today's
      midnight. */
  predicate BirthDateAccepted(b: ValidDateTime, today: ValidDate) {
    b != DefaultDateTime && DateBefore(b.date, today)
  }

  /** `Validate(input).IsValid`, stated field by field. */
  predicate Accepted(input: CustomerCreateDto, today: ValidDate, isEmail: string -> bool) {
    && NameAccepted(input.firstName)
    && NameAccepted(input.lastName)
    && EmailAccepted(input.email, isEmail)
    && PhoneAccepted(input.phoneNumber)
    && BirthDateAccepted(input.birthDate, today)
  }

  /** The violations of the five rules, one block per rule. */
  function ViolationsByField(input: CustomerCreateDto, today: ValidDate, isEmail: string -> bool): seq<Violation> {
    StringViolations(FirstName, NameChecks, input.firstName, isEmail)
    + (StringViolations(LastName, NameChecks, input.lastName, isEmail)
    + (StringViolations(Email, EmailChecks, input.email, isEmail)
    + (StringViolations(PhoneNumber, PhoneChecks, input.phoneNumber, isEmail)
    + DateViolations(BirthDateChecks, input.birthDate, today))))
  }

  lemma RulesByField(input: CustomerCreateDto, today: ValidDate, isEmail: string -> bool)
    ensures AllViolations(Rules, 0, input, today, isEmail) == ViolationsByField(input, today, isEmail)
  {
    var rs := Rules;
    var f := StringViolations(FirstName, NameChecks, input.firstName, isEmail);
    var l := StringViolations(LastName, NameChecks, input.lastName, isEmail);
    var e := StringViolations(Email, EmailChecks, input.email, isEmail);
    var ph := StringViolations(PhoneNumber, PhoneChecks, input.phoneNumber, isEmail);
    var b := DateViolations(BirthDateChecks, input.birthDate, today);
    assert AllViolations(rs, 4, input, today, isEmail) == b + [] == b;
    assert AllViolations(rs, 3, input, today, isEmail) == ph + b;
    assert AllViolations(rs, 2, input, today, isEmail) == e + (ph + b);
    assert AllViolations(rs, 1, input, today, isEmail) == l + (e + (ph + b));
    assert AllViolations(rs, 0, input, today, isEmail) == f + (l + (e + (ph + b)));
  }

  /** `Validate`: every failed check of every rule, in declaration order. The
      input is valid exactly when each field meets its own condition. */
  function Validate(input: CustomerCreateDto, today: ValidDate, isEmail: string -> bool): (errors: seq<Violation>)
    ensures |errors| == 0 <==> Accepted(input, today, isEmail)
  {
    RulesByField(input, today, isEmail);
    NameRuleMeaning(FirstName, input.firstName, isEmail);
    NameRuleMeaning(LastName, input.lastName, isEmail);
    EmailRuleMeaning(input.email, isEmail);
    PhoneRuleMeaning(input.phoneNumber, isEmail);
    BirthDateRuleMeaning(input.birthDate, today);
    AllViolations(Rules, 0, input, today, isEmail)
  }

  lemma NameRuleMeaning(p: StringProperty, value: NullableString, isEmail: string -> bool)
    ensures StringViolations(p, NameChecks, value, isEmail) == [] <==> NameAccepted(value)
  {
    var cs := NameChecks;
    StringViolationsMeaning(p, cs, value, isEmail);
    if StringCheckPasses(cs[0], value, isEmail) && StringCheckPasses(cs[1], value, isEmail) {
      forall i | 0 <= i < |cs| ensures StringCheckPasses(cs[i], value, isEmail) {}
    }
  }

  lemma EmailRuleMeaning(value: NullableString, isEmail: string -> bool)
    ensures StringViolations(Email, EmailChecks, value, isEmail) == [] <==> EmailAccepted(value, isEmail)
  {
    var cs := EmailChecks;
    StringViolationsMeaning(Email, cs, value, isEmail);
    if StringCheckPasses(cs[0], value, isEmail) && StringCheckPasses(cs[1], value, isEmail)
       && StringCheckPasses(cs[2], value, isEmail) {
      forall i | 0 <= i < |cs| ensures StringCheckPasses(cs[i], value, isEmail) {}
    }
  }

  lemma PhoneRuleMeaning(value: NullableString, isEmail: string -> bool)
    ensures StringViolations(PhoneNumber, PhoneChecks, value, isEmail) == [] <==> PhoneAccepted(value)
  {
    var cs := PhoneChecks;
    StringViolationsMeaning(PhoneNumber, cs, value, isEmail);
    if StringCheckPasses(cs[0], value, isEmail) {
      forall i | 0 <= i < |cs| ensures StringCheckPasses(cs[i], value, isEmail) {}
    }
  }

  lemma BirthDateRuleMeaning(value: ValidDateTime, today: ValidDate)
    ensures DateViolations(BirthDateChecks, value, today) == [] <==> BirthDateAccepted(value, today)
  {
    var cs := BirthDateChecks;
    DateViolationsMeaning(cs, value, today);
    if DateCheckPasses(cs[0], value, today) && DateCheckPasses(cs[1], value, today) {
      forall i | 0 <= i < |cs| ensures DateCheckPasses(cs[i], value, today) {}
    }
  }

  /** `errors` holds a failure of some check on string member `p`. */
  predicate ReportsProperty(errors: seq<Violation>, p: StringProperty) {
    exists v :: v in errors && v.StringViolation? && v.property == p
  }

  /** `errors` holds a failure of some check on the birth date. */
  predicate ReportsBirthDate(errors: seq<Violation>) {
    exists v :: v in errors && v.BirthDateViolation?
  }

  lemma ReportsConcat(a: seq<Violation>, b: seq<Violation>)
    ensures forall p :: ReportsProperty(a + b, p) <==> ReportsProperty(a, p) || ReportsProperty(b, p)
    ensures ReportsBirthDate(a + b) <==> ReportsBirthDate(a) || ReportsBirthDate(b)
  {
  }

  /** A string rule reports its own property exactly when it fails, and
      nothing else. */
  lemma StringBlockReports(q: StringProperty, checks: seq<StringCheck>, value: NullableString, isEmail: string -> bool)
    ensures forall p :: ReportsProperty(StringViolations(q, checks, value, isEmail), p)
                        <==> p == q && StringViolations(q, checks, value, isEmail) != []
    ensures !ReportsBirthDate(StringViolations(q, checks, value, isEmail))
  {
    var vs := StringViolations(q, checks, value, isEmail);
    StringViolationsNameProperty(q, checks, value, isEmail);
    if vs != [] {
      assert vs[0] in vs;
    }
  }

  /** The birth-date rule reports the birth date exactly when it fails, and
      no string property. */
  lemma DateBlockReports(checks: seq<DateCheck>, value: ValidDateTime, today: ValidDate)
    ensures forall p :: !ReportsProperty(DateViolations(checks, value, today), p)
    ensures ReportsBirthDate(DateViolations(checks, value, today)) <==> DateViolations(checks, value, today) != []
  {
    var vs := DateViolations(checks, value, today);
    DateViolationsMeaning(checks, value, today);
    if vs != [] {
      assert vs[0] in vs;
    }
  }

  /** A field is reported exactly when it fails its condition: rejecting the
      input can always be traced to the failing fields, and no accepted field
      is blamed. */
  lemma ReportedIffRejected(input: CustomerCreateDto, today: ValidDate, isEmail: string -> bool)
    ensures var errors := Validate(input, today, isEmail);
      && (ReportsProperty(errors, FirstName) <==> !NameAccepted(input.firstName))
      && (ReportsProperty(errors, LastName) <==> !NameAccepted(input.lastName))
      && (ReportsProperty(errors, Email) <==> !EmailAccepted(input.email, isEmail))
      && (ReportsProperty(errors, PhoneNumber) <==> !PhoneAccepted(input.phoneNumber))
      && (ReportsBirthDate(errors) <==> !BirthDateAccepted(input.birthDate, today))
  {
    RulesByField(input, today, isEmail);
    NameRuleMeaning(FirstName, input.firstName, isEmail);
    NameRuleMeaning(LastName, input.lastName, isEmail);
    EmailRuleMeaning(input.email, isEmail);
    PhoneRuleMeaning(input.phoneNumber, isEmail);
    BirthDateRuleMeaning(input.birthDate, today);
    BlocksReported(
      StringViolations(FirstName, NameChecks, input.firstName, isEmail),
      StringViolations(LastName, NameChecks, input.lastName, isEmail),
      StringViolations(Email, EmailChecks, input.email, isEmail),
      StringViolations(PhoneNumber, PhoneChecks, input.phoneNumber, isEmail),
      DateViolations(BirthDateChecks, input.birthDate, today));
    StringBlockReports(FirstName, NameChecks, input.firstName, isEmail);
    StringBlockReports(LastName, NameChecks, input.lastName, isEmail);
    StringBlockReports(Email, EmailChecks, input.email, isEmail);
    StringBlockReports(PhoneNumber, PhoneChecks, input.phoneNumber, isEmail);
    DateBlockReports(BirthDateChecks, input.birthDate, today);
  }

  /** What the five blocks report together is what each reports alone. */
  lemma BlocksReported(f: seq<Violation>, l: seq<Violation>, e: seq<Violation>, ph: seq<Violation>, b: seq<Violation>)
    ensures forall p :: ReportsProperty(f + (l + (e + (ph + b))), p) <==>
      ReportsProperty(f, p) || ReportsProperty(l, p) || ReportsProperty(e, p) || ReportsProperty(ph, p) || ReportsProperty(b, p)
    ensures ReportsBirthDate(f + (l + (e + (ph + b)))) <==>
      ReportsBirthDate(f) || ReportsBirthDate(l) || ReportsBirthDate(e) || ReportsBirthDate(ph) || ReportsBirthDate(b)
  {
    ReportsConcat(ph, b);
    ReportsConcat(e, ph + b);
    ReportsConcat(l, e + (ph + b));
    ReportsConcat(f, l + (e + (ph + b)));
  }

  /** Length boundary of the name rules: a non-blank name of 100 UTF-16 units
      passes, one of 101 is rejected. */
  lemma NameLengthBoundary(s: string)
    requires !AllWhiteSpace(s)
    ensures Utf16Length(s) == 100 ==> NameAccepted(Some(s))
    ensures Utf16Length(s) == 101 ==> !NameAccepted(Some(s))
  {
  }

  /** A birth date the validator accepts yields a non-negative age. */
  lemma AcceptedBirthDateHasNonNegativeAge(input: CustomerCreateDto, today: ValidDate, isEmail: string -> bool)
    requires Validate(input, today, isEmail) == []
    ensures AutoMapperConfig.CalculateAge(input.birthDate, today) >= 0
  {
    AutoMapperConfig.AgeNonNegative(input.birthDate, today);
  }
}
