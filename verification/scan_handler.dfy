/**
 * The Lambda handler of the security group scanner: query the security groups,
 * filter the open ones, and when there are any publish an alert and store the
 * list; any failure inside the guarded region is reported by one more publish,
 * and the handler returns the same envelope in every case except when that
 * error publish itself fails.
 *
 * The three AWS services are not called here. Their answers for one invocation
 * are inputs (`Services`): the query's groups or the text of its exception, and
 * for each later call whether it completes or raises. The handler's observable
 * behaviour is the list of calls that completed (`Effect`s, in order) and how
 * the invocation ends.
 */
module ScanHandler {
  import opened Wrappers
  import opened OpenIngress

  /** The notification topic and the bucket; fixed at deploy time. */
  const TOPIC_ARN: string := "arn:aws:sns:us-east-1:664418964175:VPC-Security-Alerts"
  const BUCKET_NAME: string := "tatenda-vpc-security-logs"

  /** The subject of both notifications. */
  const ALERT_SUBJECT: string := "VPC Security Alert"
  const FOUND_PREFIX: string := "Open Security Groups Found: "
  const ERROR_PREFIX: string := "Error in VPC Security Scanner: "
  const KEY_PREFIX: string := "open-sg-findings/"
  const KEY_SUFFIX: string := ".json"

  /** The JSON encoding of the string `Security Group Scan Complete` (no character needs escaping). */
  const COMPLETE_BODY: string := "\"Security Group Scan Complete\""

  /** Whether a call completes, or raises an exception whose `str` is `text`. */
  datatype CallOutcome = Completes | Raises(text: string)

  /** What the outside world answers during one invocation. */
  datatype Services = Services(
    describe: Result<seq<SecurityGroup>, string>,  // the groups of the query, or str(e) of its exception
    alertPublish: CallOutcome,                     // the publish of the findings
    findingsPut: CallOutcome,                      // the put of the findings object
    errorPublish: CallOutcome,                     // the publish in the exception handler
    timestamp: string)                             // the UTC ISO-8601 time taken before the put

  /** A call to SNS or S3 that completed. */
  datatype Effect =
    | Published(topicArn: string, subject: string, message: string)
    | Stored(bucket: string, key: string, body: string)

  /** The invocation returns a response, or ends with an exception the handler does not catch. */
  datatype Ending = Returned(statusCode: int, body: string) | Raised(text: string)

  /** The one response the handler ever returns. */
  const ENVELOPE: Ending := Returned(200, COMPLETE_BODY)

  /** `str(KeyError(key))`: the key in single quotes. */
  function KeyErrorText(key: string): string
  {
    "'" + key + "'"
  }

  /** The alert for a non-empty findings list; `render` is Python's list display. */
  function AlertFor(found: seq<string>, render: seq<string> -> string): Effect
  {
    Published(TOPIC_ARN, ALERT_SUBJECT, FOUND_PREFIX + render(found))
  }

  /** The stored record of the findings; `encode` is the JSON encoding of a list of strings. */
  function RecordFor(found: seq<string>, timestamp: string, encode: seq<string> -> string): Effect
  {
    Stored(BUCKET_NAME, KEY_PREFIX + timestamp + KEY_SUFFIX, encode(found))
  }

  /** The notification sent from the exception handler. */
  function ErrorAlertFor(text: string): Effect
  {
    Published(TOPIC_ARN, ALERT_SUBJECT, ERROR_PREFIX + text)
  }

  /** The query followed by the filter: the findings, or the text of the first exception. */
  function Findings(describe: Result<seq<SecurityGroup>, string>): Result<seq<string>, string>
  {
    match describe
    case Failure(text) => Failure(text)
    case Success(groups) =>
      match Scan(groups)
      case Failure(key) => Failure(KeyErrorText(key))
      case Success(found) => Success(found)
  }

  /** What the exception handler adds to the effects: its publish, if that completes. */
  function ErrorReport(text: string, errorPublish: CallOutcome): seq<Effect>
  {
    match errorPublish
    case Completes => [ErrorAlertFor(text)]
    case Raises(_) => []
  }

  /** How the invocation ends after the exception handler ran. */
  function EndingAfterReport(errorPublish: CallOutcome): Ending
  {
    match errorPublish
    case Completes => ENVELOPE
    case Raises(text) => Raised(text)
  }

  /**
   * One invocation of the handler, path by path: clean scan, findings
   * reported and stored, and a failure of the query, of the filter, of the
   * alert or of the put, each followed by the error report.
   */
  method LambdaHandler(svc: Services, render: seq<string> -> string, encode: seq<string> -> string)
    returns (effects: seq<Effect>, ending: Ending)
    // No findings: nothing is published or stored.
    ensures Findings(svc.describe) == Success([]) ==> effects == [] && ending == ENVELOPE
    // Findings and every call completes: the alert, then the record.
    ensures Findings(svc.describe).Success? && Findings(svc.describe).value != []
            && svc.alertPublish.Completes? && svc.findingsPut.Completes? ==>
              effects == [AlertFor(Findings(svc.describe).value, render),
                          RecordFor(Findings(svc.describe).value, svc.timestamp, encode)]
              && ending == ENVELOPE
    // The query or the filter raises: only the error report.
    ensures Findings(svc.describe).Failure? ==>
              effects == ErrorReport(Findings(svc.describe).error, svc.errorPublish)
              && ending == EndingAfterReport(svc.errorPublish)
    // The alert raises: only the error report, nothing stored.
    ensures Findings(svc.describe).Success? && Findings(svc.describe).value != [] && svc.alertPublish.Raises? ==>
              effects == ErrorReport(svc.alertPublish.text, svc.errorPublish)
              && ending == EndingAfterReport(svc.errorPublish)
    // The put raises: the alert, then the error report.
    ensures Findings(svc.describe).Success? && Findings(svc.describe).value != []
            && svc.alertPublish.Completes? && svc.findingsPut.Raises? ==>
              effects == [AlertFor(Findings(svc.describe).value, render)] + ErrorReport(svc.findingsPut.text, svc.errorPublish)
              && ending == EndingAfterReport(svc.errorPublish)
    // The fixed envelope, unless the error publish itself raised.
    ensures ending == ENVELOPE || (svc.errorPublish.Raises? && ending == Raised(svc.errorPublish.text))
    // At most one record is stored: as the second effect, after the alert.
    ensures forall k | 0 <= k < |effects| && effects[k].Stored? :: k == 1 && effects[0].Published?
    // With a complete query, nothing happens exactly when no group is open to the world.
    ensures svc.describe.Success? && Scannable(svc.describe.value) ==>
              ((effects == [] && ending == ENVELOPE) <==> forall g | g in svc.describe.value :: !IsExposed(g))
  {
    effects := [];
    var failure: Option<string> := None;
    match svc.describe {
      case Failure(text) =>
        failure := Some(text);
      case Success(groups) =>
        var scanned := FindOpenGroups(groups);
        match scanned {
          case Failure(key) =>
            failure := Some(KeyErrorText(key));
          case Success(found) =>
            ScanEmptyIffNoneExposed(groups, found);
            if found != [] {
              match svc.alertPublish {
                case Raises(text) =>
                  failure := Some(text);
                case Completes =>
                  effects := effects + [AlertFor(found, render)];
                  match svc.findingsPut {
                    case Raises(text) =>
                      failure := Some(text);
                    case Completes =>
                      effects := effects + [RecordFor(found, svc.timestamp, encode)];
                  }
              }
            }
        }
    }
    match failure {
      case None =>
        ending := ENVELOPE;
      case Some(text) =>
        match svc.errorPublish {
          case Raises(errorText) =>
            ending := Raised(errorText);
          case Completes =>
            effects := effects + [ErrorAlertFor(text)];
            ending := ENVELOPE;
        }
    }
  }
}
