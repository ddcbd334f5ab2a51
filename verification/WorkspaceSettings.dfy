/** The settings call and the shared currency lock on the tables themselves, statement by statement. */
module WorkspaceSettings {
  import opened Wrappers
  import CurrencyLock

  datatype Workspace = Workspace(name: string, timezone: string, baseCurrency: string)

  /** Texts arrive trimmed; the supported currencies and time zones are whatever the platform knows. */
  datatype SettingsInput = SettingsInput(name: Option<string>, timezone: string, baseCurrency: Option<string>)

  datatype InputError = NameTooShort | NameTooLong | TimezoneRequired | TimezoneUnknown | CurrencyUnsupported

  datatype CallError = Invalid(errors: seq<InputError>) | NotFound | Locked

  datatype Updated = Updated(workspace: Workspace, baseCurrencyLocked: bool)

  predicate NameOk(n: string) { 2 <= |n| <= 100 }

  predicate InputOk(input: SettingsInput, zones: set<string>, currencies: set<string>) {
    && (input.name.Some? ==> NameOk(input.name.value))
    && input.timezone in zones && input.timezone != ""
    && (input.baseCurrency.Some? ==> input.baseCurrency.value in currencies)
  }

  /** Each bad field adds its error; nothing is reported about a good one. */
  method ValidateSettings(input: SettingsInput, zones: set<string>, currencies: set<string>) returns (errors: seq<InputError>)
    ensures errors == [] <==> InputOk(input, zones, currencies)
    ensures CurrencyUnsupported in errors <==> input.baseCurrency.Some? && input.baseCurrency.value !in currencies
    ensures TimezoneRequired in errors <==> input.timezone == ""
    ensures TimezoneUnknown in errors <==> input.timezone != "" && input.timezone !in zones
    ensures NameTooShort in errors <==> input.name.Some? && |input.name.value| < 2
    ensures NameTooLong in errors <==> input.name.Some? && |input.name.value| > 100
    ensures |errors| <= 3
  {
    errors := [];
    if input.name.Some? {
      if |input.name.value| < 2 {
        errors := errors + [NameTooShort];
      } else if |input.name.value| > 100 {
        errors := errors + [NameTooLong];
      }
    }
    if input.timezone == "" {
      errors := errors + [TimezoneRequired];
    } else if input.timezone !in zones {
      errors := errors + [TimezoneUnknown];
    }
    if input.baseCurrency.Some? && input.baseCurrency.value !in currencies {
      errors := errors + [CurrencyUnsupported];
    }
  }

  class Workspaces {
    var rows: map<string, Workspace>
    var items: map<string, CurrencyLock.Item>
    var sharedBy: map<string, set<nat>>       // live transactions holding a workspace row FOR SHARE
    var exclusiveBy: map<string, nat>         // the live transaction holding it FOR UPDATE

    constructor ()
      ensures rows == map[] && items == map[] && sharedBy == map[] && exclusiveBy == map[]
      ensures Agrees()
    {
      rows, items, sharedBy, exclusiveBy := map[], map[], map[], map[];
    }

    /** Every financial row was written under its workspace's base currency. */
    ghost predicate Agrees()
      reads this
    {
      forall i :: i in items ==> items[i].workspace in rows && items[i].base == rows[items[i].workspace].baseCurrency
    }

    function Holders(ws: string): set<nat>
      reads this
    {
      if ws in sharedBy then sharedBy[ws] else {}
    }

    /** The shared lock is taken before the currency is read; it waits while another transaction holds the row exclusively. */
    method LockWorkspaceCurrency(tid: nat, ws: string) returns (r: Result<Workspace, CallError>)
      requires ws in exclusiveBy ==> exclusiveBy[ws] == tid
      modifies this`sharedBy
      ensures ws !in rows ==> r == Err(NotFound) && sharedBy == old(sharedBy)
      ensures ws in rows ==> r == Ok(rows[ws]) && sharedBy == old(sharedBy)[ws := old(Holders(ws)) + {tid}]
    {
      if ws !in rows {
        return Err(NotFound);
      }
      sharedBy := sharedBy[ws := Holders(ws) + {tid}];
      return Ok(rows[ws]);
    }

    /** `COUNT(*) > 0` over the workspace's transactions, budgets and goals. */
    method BaseCurrencyLocked(ws: string) returns (locked: bool)
      ensures locked <==> CurrencyLock.HasItems(items, ws)
    {
      var mine := set i | i in items && items[i].workspace == ws;
      locked := mine != {};
      if locked {
        ghost var i :| i in mine;
      }
      if CurrencyLock.HasItems(items, ws) {
        ghost var i :| i in items && items[i].workspace == ws;
        assert i in mine;
      }
    }

    /**
     The exclusive counterpart, granted only when nobody else holds the row. A currency asked for is the one stored and
     returned, unless it is another one and something financial exists; name and time zone move in any case.
     */
    method UpdateWorkspaceSettings(tid: nat, ws: string, input: SettingsInput, zones: set<string>, currencies: set<string>)
      returns (r: Result<Updated, CallError>)
      requires Agrees() && ws !in exclusiveBy && Holders(ws) <= {tid}
      modifies this`rows, this`exclusiveBy
      ensures Agrees() && exclusiveBy == old(exclusiveBy)
      ensures !InputOk(input, zones, currencies) <==> r.Err? && r.error.Invalid?
      ensures r == Err(NotFound) <==> InputOk(input, zones, currencies) && ws !in old(rows)
      ensures r == Err(Locked) <==> InputOk(input, zones, currencies) && ws in old(rows) && input.baseCurrency.Some?
                                    && input.baseCurrency.value != old(rows)[ws].baseCurrency && CurrencyLock.HasItems(items, ws)
      ensures r.Err? ==> rows == old(rows)
      ensures r.Ok? ==>
                && rows == old(rows)[ws := r.value.workspace] && r.value.baseCurrencyLocked == CurrencyLock.HasItems(items, ws)
                && r.value.workspace.baseCurrency == (if input.baseCurrency.Some? then input.baseCurrency.value else old(rows)[ws].baseCurrency)
                && r.value.workspace.timezone == input.timezone
                && r.value.workspace.name == if input.name.Some? then input.name.value else old(rows)[ws].name
    {
      var errors := ValidateSettings(input, zones, currencies);
      if errors != [] {
        return Err(Invalid(errors));
      }
      exclusiveBy := exclusiveBy[ws := tid];
      if ws !in rows {
        exclusiveBy := exclusiveBy - {ws};
        return Err(NotFound);
      }
      var workspace := rows[ws];
      var locked := BaseCurrencyLocked(ws);
      if input.baseCurrency.Some? && input.baseCurrency.value != workspace.baseCurrency && locked {
        exclusiveBy := exclusiveBy - {ws};
        return Err(Locked);
      }
      var updated := workspace.(timezone := input.timezone);
      if input.name.Some? {
        updated := updated.(name := input.name.value);
      }
      if input.baseCurrency.Some? {
        updated := updated.(baseCurrency := input.baseCurrency.value);
      }
      rows := rows[ws := updated];
      exclusiveBy := exclusiveBy - {ws};
      return Ok(Updated(updated, locked));
    }
  }
}
