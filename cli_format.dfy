/**
 * The small rules of the command line: KEY=VAL option values, resource type
 * display, console line colouring, expired-credential error codes and the
 * length limit on stack names.
 */
module CliFormat {
  import opened Wrappers
  import opened CliText

  // KeyValParamType.convert

  /** An option value as click hands it over: a raw string, or a pair already converted. */
  datatype ParamValue = Text(s: string) | Pair(key: string, val: string)

  datatype ConvertError = InvalidKeyValue(value: string)

  /** A string is split at its first '=' into key and value; a pair passes through unchanged. */
  function KeyValConvert(value: ParamValue): (r: Result<(string, string), ConvertError>)
    ensures r.Success? <==> value.Pair? || '=' in value.s
    ensures value.Pair? ==> r == Success((value.key, value.val))
    ensures value.Text? && r.Success? ==> '=' !in r.value.0 && value.s == r.value.0 + "=" + r.value.1
    ensures r.Failure? ==> r.error == InvalidKeyValue(value.s)
  {
    match value
    case Pair(key, val) => Success((key, val))
    case Text(s) =>
      if '=' in s then
        var (key, val) := SplitFirst(s, '=');
        Success((key, val))
      else Failure(InvalidKeyValue(s))
  }

  /** Writing KEY=VAL and converting it gives the key and value back, whatever '=' the value holds. */
  lemma KeyValRoundTrip(key: string, val: string)
    requires '=' !in key
    ensures KeyValConvert(Text(key + "=" + val)) == Success((key, val))
  {
    var s := key + "=" + val;
    assert s[|key|] == '=';
    SplitFirstJoin(key, '=', val);
  }

  // format_resource_type

  const AwsPrefix := "AWS::"

  /** Strips one leading "AWS::"; anything else, None and "" included, is returned as it is. */
  function FormatResourceType(resourceType: Option<string>): (r: Option<string>)
    ensures r.None? <==> resourceType.None?
    ensures resourceType.Some? && AwsPrefix <= resourceType.value ==> resourceType.value == AwsPrefix + r.value
    ensures resourceType.Some? && !(AwsPrefix <= resourceType.value) ==> r == resourceType
  {
    if resourceType.Some? && resourceType.value != "" && AwsPrefix <= resourceType.value
    then Some(resourceType.value[|AwsPrefix|..])
    else resourceType
  }

  /** Exactly one prefix is removed, even when the rest starts with "AWS::" again. */
  lemma StripsOnePrefix(rest: string)
    ensures FormatResourceType(Some(AwsPrefix + rest)) == Some(rest)
  {
    assert (AwsPrefix + rest)[|AwsPrefix|..] == rest;
  }

  lemma StripsOnlyOnce()
    ensures FormatResourceType(Some("AWS::AWS::EC2::Instance")) == Some("AWS::EC2::Instance")
  {
    assert "AWS::AWS::EC2::Instance" == AwsPrefix + "AWS::EC2::Instance";
    StripsOnePrefix("AWS::EC2::Instance");
  }

  // get_console_line_style

  datatype Color = Red | Yellow | Green

  /** The keyword arguments given to click.secho: an optional foreground colour and bold. */
  datatype Style = Style(fg: Option<Color>, bold: bool)

  const Plain := Style(None, false)

  /** The first of ERROR:, WARNING:, SUCCESS:, INFO: found in the line decides its style. */
  function ConsoleLineStyle(line: string): (r: Style)
    ensures r.fg == Some(Red) <==> Contains(line, "ERROR:")
    ensures r.fg == Some(Yellow) <==> !Contains(line, "ERROR:") && Contains(line, "WARNING:")
    ensures r.fg == Some(Green) <==> !Contains(line, "ERROR:") && !Contains(line, "WARNING:") && Contains(line, "SUCCESS:")
    ensures r.bold <==> Contains(line, "ERROR:") || Contains(line, "WARNING:") || Contains(line, "SUCCESS:") || Contains(line, "INFO:")
    ensures !r.bold ==> r == Plain
  {
    if Contains(line, "ERROR:") then Style(Some(Red), true)
    else if Contains(line, "WARNING:") then Style(Some(Yellow), true)
    else if Contains(line, "SUCCESS:") then Style(Some(Green), true)
    else if Contains(line, "INFO:") then Style(None, true)
    else Plain
  }

  /** A keyword anywhere in the line counts, not only at its start. */
  lemma KeywordAnywhere(before: string, keyword: string, after: string)
    ensures Contains(before + keyword + after, keyword)
  {
    var s := before + keyword + after;
    assert OccursAt(s, keyword, |before|) by {
      assert s[|before|..|before| + |keyword|] == keyword;
    }
    ContainsAt(s, keyword);
  }

  /** A keyword with a character the line lacks does not occur in it. */
  lemma MissingChar(line: string, keyword: string, c: char)
    requires c in keyword && c !in line
    ensures !Contains(line, keyword)
  {
    var k :| 0 <= k < |keyword| && keyword[k] == c;
    forall i | 0 <= i && i + |keyword| <= |line| ensures !OccursAt(line, keyword, i) {
      assert line[i..i + |keyword|][k] != c;
    }
    ContainsAt(line, keyword);
  }

  // The doctests

  lemma PlainLine()
    ensures ConsoleLineStyle("foo") == Plain
  {
    MissingChar("foo", "ERROR:", ':');
    MissingChar("foo", "WARNING:", ':');
    MissingChar("foo", "SUCCESS:", ':');
    MissingChar("foo", "INFO:", ':');
  }

  lemma ErrorLine()
    ensures ConsoleLineStyle("ERROR:").fg == Some(Red)
  {
    assert Contains("ERROR:", "ERROR:");
  }

  lemma WarningLine()
    ensures ConsoleLineStyle("WARNING:").fg == Some(Yellow)
  {
    MissingChar("WARNING:", "ERROR:", 'E');
    assert Contains("WARNING:", "WARNING:");
  }

  lemma SuccessLine()
    ensures ConsoleLineStyle("SUCCESS:").fg == Some(Green)
  {
    MissingChar("SUCCESS:", "ERROR:", 'R');
    MissingChar("SUCCESS:", "WARNING:", 'W');
    assert Contains("SUCCESS:", "SUCCESS:");
  }

  lemma InfoLine()
    ensures ConsoleLineStyle("INFO:").bold
  {
    assert Contains("INFO:", "INFO:");
  }

  // is_credentials_expired_error

  const ExpiredCodes := ["ExpiredToken", "RequestExpired"]

  /** The AWS error codes that mean the session credentials ran out. */
  function IsCredentialsExpired(code: string): (r: bool)
    ensures r <==> code == "ExpiredToken" || code == "RequestExpired"
  {
    code in ExpiredCodes
  }

  // The stack name checked by create

  const MaxStackNameLength := 128

  datatype CreateError = StackNameTooLong(stackName: string)

  function StackName(name: string, version: string): string
  {
    name + "-" + version
  }

  /** create refuses a stack whose name and version together exceed 128 characters. */
  function CheckStackName(name: string, version: string): (r: Result<string, CreateError>)
    ensures r.Success? <==> |name| + |version| + 1 <= MaxStackNameLength
    ensures r.Success? ==> r.value == StackName(name, version)
    ensures r.Failure? ==> r.error == StackNameTooLong(StackName(name, version))
  {
    var stackName := StackName(name, version);
    if |stackName| > MaxStackNameLength then Failure(StackNameTooLong(stackName)) else Success(stackName)
  }

  /** The part of a stack name after its last '-'. */
  function AfterLastDash(s: string): string
  {
    if s == [] then []
    else if s[|s| - 1] == '-' then []
    else AfterLastDash(s[..|s| - 1]) + [s[|s| - 1]]
  }

  /** A version without '-' (every validated version) is what follows the last '-' of the stack name. */
  lemma {:induction false} VersionAfterLastDash(name: string, version: string)
    requires '-' !in version
    ensures AfterLastDash(StackName(name, version)) == version
  {
    if version != [] {
      var init := version[..|version| - 1];
      assert StackName(name, version)[..|StackName(name, version)| - 1] == StackName(name, init);
      VersionAfterLastDash(name, init);
      assert init + [version[|version| - 1]] == version;
    } else {
      assert StackName(name, version) == name + "-";
    }
  }

  /** Different name/version pairs never share a stack name when the versions have no '-'. */
  lemma StackNameInjective(n1: string, v1: string, n2: string, v2: string)
    requires '-' !in v1 && '-' !in v2 && StackName(n1, v1) == StackName(n2, v2)
    ensures n1 == n2 && v1 == v2
  {
    VersionAfterLastDash(n1, v1);
    VersionAfterLastDash(n2, v2);
    var s := StackName(n1, v1);
    assert n1 == s[..|n1|];
    assert n2 == s[..|n2|];
  }

  function Repeat(s: string, n: nat): (r: string)
    ensures |r| == |s| * n
  {
    if n == 0 then [] else s + Repeat(s, n - 1)
  }

  /** "test" with the version "abcde" repeated 25 times is 130 characters long and refused. */
  lemma LongVersionRefused()
    ensures CheckStackName("test", Repeat("abcde", 25)) == Failure(StackNameTooLong("test-" + Repeat("abcde", 25)))
  {
    var version := Repeat("abcde", 25);
    assert |version| == 125;
    assert StackName("test", version) == "test-" + version;
  }

  lemma ShortNameAccepted()
    ensures CheckStackName("test", "1") == Success("test-1")
  {
    assert StackName("test", "1") == "test-1";
  }
}
