# VPC security group scanner, modelled in Dafny

The scanner is one AWS Lambda handler (`lambda_handler` in `security_group.py`).
It asks EC2 for every security group. It then walks each group's ingress
permissions and each permission's IPv4 ranges. It records the group's id once
for every range whose `CidrIp` is exactly `0.0.0.0/0`. When the list is not
empty it publishes an SNS alert and stores the list in S3 under a timestamped
key. Any exception inside the guarded region is reported by one more SNS
publish. The handler then returns the fixed envelope `{statusCode: 200, body:
"\"Security Group Scan Complete\""}`. The exception is the case where that
error publish itself raises: it is not caught, so it leaves the handler.

The project has four modules:

- `Wrappers` (`wrappers.dfy`): `Option` and `Result`.
- `OpenIngress` (`open_ingress.dfy`): the open-ingress filter.
  - Security groups, permissions and ranges are datatypes. Every dictionary key the code reads is an `Option`.
  - `Scan` specifies the three nested loops as they run, with the same early stop on a missing key.
  - `FindOpenGroups` is the imperative version: three nested `while` loops that append to a list. It is proved equal to `Scan`.
  - `Scannable` and `Expected` describe the outcome independently: when no key is missing, and which ids are reported, how often and in which order. Lemmas connect `Scan` to that description.
- `ScanHandler` (`scan_handler.dfy`): the handler as a method.
  - The answers of the three AWS services for one invocation are inputs (`Services`).
  - Its outputs are the SNS and S3 calls that completed, in order, and how the invocation ends.
- `ScanExamples` (`scan_examples.dfy`): small concrete inputs for the filter and three concrete handler runs.

Where the code reads a dictionary key by subscript (`sg['GroupId']`,
`sg['IpPermissions']`, `ip_range['CidrIp']`), a missing key raises `KeyError`,
and the handler's `except` clause catches it. The model does the same: the scan
fails with the key's name, and the handler reports `str(KeyError(key))`, the key
in single quotes. `permission.get('IpRanges', [])` never fails; a missing key
means an empty list.

The system's design documentation calls the findings a set of identifiers, but
the code appends once per matching range and never deduplicates. The model
follows the code. The documentation also promises a success response in every
case, but the code does not catch a failure of the error publish. The model follows the code
here too: the run ends in `Raised`.

## Model

| member | source | states |
|---|---|---|
| `OpenIngress.FindOpenGroups` | security_group.py:12-24 | The three nested loops, appending the group id per wildcard range, return exactly `Scan(groups)`. The result is a success iff no key the loops read is missing. A successful result is the reference list `Expected(groups)`. |
| `OpenIngress.ScanCharacterized` | security_group.py:20-24 | The filter succeeds exactly when the groups are `Scannable`: every group has `IpPermissions`, every range has `CidrIp`, and every group with a wildcard range has `GroupId`. A success returns each group's id, in group order, once per wildcard range. |
| `OpenIngress.ScanRangesMeaning` | security_group.py:22-24 | The range loop of one permission succeeds iff every range has `CidrIp` and a wildcard occurs only with a present group id. It then appends the id once per wildcard range. |
| `OpenIngress.ScanPermissionsMeaning` | security_group.py:21-24 | The permission loop succeeds iff no range of any permission lacks `CidrIp` and a wildcard occurs only with a present group id. It then appends the id once per wildcard range over all permissions. |
| `OpenIngress.ScanGroupMeaning` | security_group.py:20-24 | One group's body raises iff `IpPermissions` is missing or its permissions are not well formed. Otherwise it appends the group id once per wildcard range of the group. |
| `OpenIngress.ScanGroupsMeaning` | security_group.py:20-24 | The group loop, started from any list, succeeds iff every group is well formed. It then extends that list by the reference findings of the groups. |
| `OpenIngress.OpenCountPositive` | security_group.py:22-23 | A range list has a nonzero wildcard count iff some entry's `CidrIp` is exactly `0.0.0.0/0`. |
| `OpenIngress.PermOpenCountPositive` | security_group.py:21-23 | A permission list has a nonzero wildcard count iff some permission has a range that is exactly `0.0.0.0/0`. |
| `OpenIngress.GroupOpenCountPositive` | security_group.py:20-23 | A group has a nonzero wildcard count iff it is exposed: some permission has a range that is exactly `0.0.0.0/0`. |
| `OpenIngress.ExpectedMembers` | security_group.py:20-24 | An id is in the reference list iff some group carrying that id is exposed. |
| `OpenIngress.ExpectedMultiplicity` | security_group.py:20-24 | An id occurs in the reference list as many times as there are wildcard ranges over all groups carrying that id. |
| `OpenIngress.ExpectedAppend` | security_group.py:20 | The reference list of two group lists in sequence is the first list's followed by the second's. |
| `OpenIngress.ScanReportsExposedGroups` | security_group.py:20-24 | Soundness and completeness: in a successful scan, an id is reported iff a scanned group with that id has a permission with a range whose `CidrIp` is exactly `0.0.0.0/0`. |
| `OpenIngress.ScanMultiplicity` | security_group.py:20-24 | No deduplication: in a successful scan, an id occurs once per wildcard range, across all permissions of all groups with that id. |
| `OpenIngress.ScanEmptyIffNoneExposed` | security_group.py:20-24 | A successful scan finds nothing iff no scanned group is exposed. |
| `OpenIngress.ScanAppend` | security_group.py:20-24 | Findings keep the group order: scanning `a + b` succeeds iff both parts do, and then gives `a`'s findings before `b`'s. An error in `a` is the error of the whole scan. |
| `OpenIngress.EmptyPermissionNeutral` | security_group.py:21-22 | Inserting a permission with no ranges anywhere in a permission list leaves the permission loop's result unchanged, error included. |
| `OpenIngress.PermissionWithoutRangesIgnored` | security_group.py:22 | A permission without an `IpRanges` key, inserted at any position of a group, changes neither the group's findings nor whether it raises. |
| `ScanHandler.LambdaHandler` | security_group.py:16-61 | Path by path, it gives the completed calls and the ending. No findings: no call. Findings with every call completing: the alert (subject `VPC Security Alert`, message `Open Security Groups Found: ` + the list's display) and then the record (key `open-sg-findings/<timestamp>.json`, body the JSON list). A failing query or filter: only the error report. A failing alert: only the error report and nothing stored. A failing put: the alert, then the error report. The error report is one publish with message `Error in VPC Security Scanner: ` + the error text. The ending is always the fixed 200 envelope unless the error publish raised. A record can only be the second effect, after the alert. For a complete query, nothing happens exactly when no group is exposed. |
| `ScanExamples.MixedRangesMatchOnce` | security_group.py:22-24 | A permission with `10.0.0.0/8` and `0.0.0.0/0` reports its group once. |
| `ScanExamples.DuplicatesKept` | security_group.py:20-24 | A group with two wildcard permissions is reported twice, before a later exposed group, and a group without a wildcard is skipped. |
| `ScanExamples.NearMissesIgnored` | security_group.py:23 | `0.0.0.0/00`, `::/0` and `0.0.0.0/1` are not the wildcard. |
| `ScanExamples.MissingRangesKeyIgnored` | security_group.py:22 | A permission without `IpRanges` adds nothing and raises nothing. |
| `ScanExamples.MissingCidrRaises` | security_group.py:23 | A range without `CidrIp` stops the scan with the `CidrIp` key error, even after an earlier match. |
| `ScanExamples.QueryFailure` | security_group.py:18 | A query that raises leads to exactly one error publish, no stored record, and the fixed envelope. |
| `ScanExamples.PutFailure` | security_group.py:32-56 | A put that raises after the alert leads to two publishes, the alert and then the error report, and no record. |
| `ScanExamples.ErrorPublishFailure` | security_group.py:49-56 | When the error publish raises, nothing completes and the exception leaves the handler. |

## Left out

- Creating the boto3 clients (security_group.py:7-9) is not modelled. If client creation raised, the exception would occur outside the guarded region.
- The EC2, SNS and S3 calls are network I/O. Each call's result is an input of the handler (`Services`): the groups or the exception text for the query, and "completes" or "raises with text" for each later call. The model does not relate an outcome to the arguments of its call.
- Pagination of the EC2 query is not handled by the code and is not modelled. A missing `SecurityGroups` key in the response counts as a failure of the query.
- `datetime.utcnow().isoformat()` reads the wall clock. The timestamp is an input string.
- Python's display of a list (`render`) and `json.dumps` of a list (`encode`) are parameters of the handler. Their exact escaping rules are not modelled. Because `encode` is a parameter, the round trip of the stored JSON is not proved. `json.dumps` of the fixed completion text needs no escaping, so it is written out as a constant.
- Exception texts are inputs, except for `KeyError`, whose text is the key in single quotes.
- The `print` logging (security_group.py:29, 47, 51) is not modelled.
- The topic ARN and bucket name (security_group.py:13-14) are constants.
- Platform-level failures (a Lambda timeout, memory exhaustion) are not modelled on their own. A timeout during an AWS call is that call's "raises" outcome.
