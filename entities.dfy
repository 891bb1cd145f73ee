/**
 * The persistent records of the contact manager, the exceptions the core raises,
 * the HTTP-style replies its services return, and the derived getters of `AppUser`
 * that Spring Security reads.
 */
module Entities {
  import opened Base
  import opened JavaText

  datatype Role = Role(tsid: int, roleName: string)

  /** A contact type; `name` is the Java field `type`. */
  datatype ContactType = ContactType(tsid: int, name: string)

  /** A contact. `owner` and `contactType` reference a user and a type by tsid;
      `None` is the null the mappers leave for the service to fill. */
  datatype Contact = Contact(
    tsid: int,
    firstName: string,
    lastName: string,
    address: string,
    phoneNumber: string,
    owner: Option<int>,
    contactType: Option<int>)

  /** An account. `password` holds the stored hash once the service has encoded it. */
  datatype AppUser = AppUser(
    tsid: int,
    firstName: string,
    lastName: string,
    email: Option<string>,
    password: string,
    phoneNumber: Option<string>,
    isEnabled: bool,
    isPhoneVerified: bool,
    roles: seq<Role>)

  /** An `AccountVerification` row: the UUID mailed in the link, bound to a user and a creation time. */
  datatype EmailToken = EmailToken(user: int, token: string, created: int)

  /** An `SmsVerification` row: the code sent by SMS, bound to a user and a creation time. */
  datatype PhoneCode = PhoneCode(user: int, code: string, created: int)

  /** What happened to one verification mail: it went out; composing it threw
      `MessagingException` (the `MimeMessageHelper` setters); or `JavaMailSender.send`
      threw Spring's unchecked `MailException`. */
  datatype MailOutcome = MailSent | MessagingFailed | SendFailed

  /** The exceptions that escape the core. */
  datatype Error =
    | ContactNotFound(contactTsid: int)
    | ContactTypeNotFoundByTsid(typeTsid: int)
    | ContactTypeNotFoundByName(name: string)
    | AppUserNotFound(field: string, fieldValue: string)
    | RoleNotFound(roleTsid: int)
    | NumberFormat(input: Option<string>)   // Long.parseLong refused its input
    | IllegalArgument(argument: int)        // Stream.skip or Stream.limit got a negative count
    | NullPointer                           // a null dereferenced by the code
    | MailFailure                           // MessagingException while the mail is composed
    | MailSendFailure                       // Spring's unchecked MailException from JavaMailSender.send
    | MailFailureWrapped                    // the bare RuntimeException generateNewVerificationEmail throws for a MessagingException
    | SmsFailure                            // the SMS gateway call threw
    | ConstraintViolation(property: string) // the entity's own bean validation refused it on save

  /** The message of each of the application's own exceptions. */
  function Message(e: Error): string
  {
    match e
    case ContactNotFound(t) => "Contact with TSID " + IntToString(t) + " not found."
    case ContactTypeNotFoundByTsid(t) => "Contact type with TSID " + IntToString(t) + " not found."
    case ContactTypeNotFoundByName(n) => "Contact type with name " + n + " not found."
    case AppUserNotFound(f, v) => "User with " + f + " " + v + " not found."
    case RoleNotFound(t) => "Role with TSID " + IntToString(t) + " not found."
    case _ => ""
  }

  /** A value, or the exception that aborted the operation. */
  datatype Result<T> = Success(value: T) | Failure(error: Error)

  /** A `ResponseEntity` built by the services: OK (or CREATED) with a body, or
      NOT_FOUND / BAD_REQUEST with an optional body. */
  datatype Reply<T> = Done(value: T) | NotFound(body: Option<string>) | BadRequest(body: Option<string>)

  /** `AppUser.getAuthorities()`: one authority per role, its name, in role order. */
  function Authorities(u: AppUser): (r: seq<string>)
    ensures |r| == |u.roles|
    ensures forall i :: 0 <= i < |r| ==> r[i] == u.roles[i].roleName
  {
    seq(|u.roles|, i requires 0 <= i < |u.roles| => u.roles[i].roleName)
  }

  /** `getUsername()`: the login name is the email address. */
  function Username(u: AppUser): (r: Option<string>)
    ensures r == u.email
  {
    u.email
  }

  /** `isEnabled()`: the stored flag, which only email verification sets. */
  function IsEnabled(u: AppUser): (r: bool)
    ensures r <==> u.isEnabled
  {
    u.isEnabled
  }

  /** Accounts never expire, lock or have their credentials expire. */
  function IsAccountNonExpired(u: AppUser): (r: bool)
    ensures r
  {
    true
  }

  function IsAccountNonLocked(u: AppUser): (r: bool)
    ensures r
  {
    true
  }

  function IsCredentialsNonExpired(u: AppUser): (r: bool)
    ensures r
  {
    true
  }

  /** The exception text that the service test pins for a missing contact. */
  lemma ContactNotFoundText()
    ensures Message(ContactNotFound(1)) == "Contact with TSID 1 not found."
  {
  }
}
