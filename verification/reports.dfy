/**
 The "Advanced Queries" catalog: the report names offered in the select box,
 in display order, and the map from report name to the query text run when
 the user presses "Run". Query texts are opaque: their meaning belongs to the
 database that executes them.
 */
module Reports {

  /** The report names of the select box, in the order they are offered. */
  const ReportMenu: seq<string> := [
    "Top 10 vehicle numbers involved in drug-related stops",
    "Vehicle most frequantly searched",
    "Which driver age group had the highest arrest rate?",
    "What is the gender distribution of drivers stopped in each country?",
    "Which race and gender combination has the highest search rate?",
    "What time of day sees the most traffic stops?",
    "What is the average stop duration for different violations?",
    "Are stops during the night more likely to lead to arrests?",
    "Which violations are most associated with searches or arrests?",
    "Which violations are most common among younger drivers (<25)?",
    "Is there a violation that rarely results in search or arrest?",
    "Which countries report the highest rate of drug-related stops?",
    "What is the arrest rate by country and violation?",
    "Which country has the most stops with search conducted?",
    "Yearly Breakdown of Stops and Arrests by Country",
    "Driver Violation Trends Based on Age and Race",
    "Time Period Analysis of Stops (Year, Month, Hour)",
    "Violations with High Search and Arrest Rates",
    "Driver Demographics by Country (Age, Gender, and Race)",
    "Top 5 Violations with Highest Arrest Rates"
  ]

  /** Report name to query text. */
  const QueryMap: map<string, string> := map[
    "Top 10 vehicle numbers involved in drug-related stops" := "SELECT vehicle_number, COUNT(*) AS drug_related_stops FROM ledger WHERE drugs_related_stop = TRUE GROUP BY vehicle_number ORDER BY drug_related_stops DESC LIMIT 10;",
    "Vehicle most frequantly searched" := "SELECT vehicle_number, COUNT(*) AS search_count FROM ledger WHERE search_conducted = TRUE GROUP BY vehicle_number ORDER BY search_count DESC;",
    "Which driver age group had the highest arrest rate?" := "SELECT driver_age, COUNT(*) AS arrest_count FROM ledger WHERE is_arrested = TRUE GROUP BY driver_age ORDER BY arrest_count DESC;",
    "What is the gender distribution of drivers stopped in each country?" := "SELECT country_name, driver_gender, COUNT(*) AS total_stops FROM ledger GROUP BY country_name, driver_gender;",
    "Which race and gender combination has the highest search rate?" := "SELECT driver_race, driver_gender,  COUNT(*) AS total_stops, SUM(CASE WHEN search_conducted = TRUE THEN 1 ELSE 0 END) AS searches, ROUND(SUM(CASE WHEN search_conducted = TRUE THEN 1 ELSE 0 END) * 100.0 / COUNT(*), 2) AS search_rate FROM ledger GROUP BY driver_race, driver_gender ORDER BY search_rate DESC;",
    "What time of day sees the most traffic stops?" := "SELECT HOUR(STR_TO_DATE(stop_time, '%H:%i:%s')) AS hour_of_day, COUNT(*) AS stop_count FROM ledger GROUP BY hour_of_day ORDER BY stop_count DESC;",
    "What is the average stop duration for different violations?" := "SELECT violation, AVG(CASE stop_duration WHEN '0-15 Min' THEN 15 WHEN '16-30 Min' THEN 30 WHEN '30+ Min' THEN 45 END) AS avg_duration_minutes FROM ledger GROUP BY violation;",
    "Are stops during the night more likely to lead to arrests?" := "SELECT CASE WHEN HOUR(STR_TO_DATE(stop_time, '%H:%i:%s')) BETWEEN 20 AND 23 OR HOUR(STR_TO_DATE(stop_time, '%H:%i:%s')) BETWEEN 0 AND 5 THEN 'Night' ELSE 'Day' END AS time_period, COUNT(*) AS total_stops, SUM(CASE WHEN is_arrested = TRUE THEN 1 ELSE 0 END) AS arrests, ROUND(SUM(CASE WHEN is_arrested = TRUE THEN 1 ELSE 0 END) * 100.0 / COUNT(*), 2) AS arrest_rate FROM ledger GROUP BY time_period;",
    "Which violations are most associated with searches or arrests?" := "SELECT violation, COUNT(*) AS total_stops, SUM(CASE WHEN search_conducted = TRUE THEN 1 ELSE 0 END) AS total_searches, SUM(CASE WHEN is_arrested = TRUE THEN 1 ELSE 0 END) AS total_arrests FROM ledger GROUP BY violation ORDER BY total_searches DESC, total_arrests DESC;",
    "Which violations are most common among younger drivers (<25)?" := "SELECT violation, COUNT(*) AS count FROM ledger WHERE driver_age < 25 GROUP BY violation ORDER BY count DESC;",
    "Is there a violation that rarely results in search or arrest?" := "SELECT violation, COUNT(*) AS total, SUM(CASE WHEN search_conducted = TRUE THEN 1 ELSE 0 END) AS searches, SUM(CASE WHEN is_arrested = TRUE THEN 1 ELSE 0 END) AS arrests FROM ledger GROUP BY violation HAVING searches = 0 AND arrests = 0;",
    "Which countries report the highest rate of drug-related stops?" := "SELECT country_name, COUNT(*) AS total_stops, SUM(CASE WHEN drugs_related_stop = TRUE THEN 1 ELSE 0 END) AS drug_related, ROUND(SUM(CASE WHEN drugs_related_stop = TRUE THEN 1 ELSE 0 END) * 100.0 / COUNT(*), 2) AS drug_rate FROM ledger GROUP BY country_name ORDER BY drug_rate DESC;",
    "What is the arrest rate by country and violation?" := "SELECT country_name, violation, COUNT(*) AS total, SUM(CASE WHEN is_arrested = TRUE THEN 1 ELSE 0 END) AS arrests, ROUND(SUM(CASE WHEN is_arrested = TRUE THEN 1 ELSE 0 END) * 100.0 / COUNT(*), 2) AS arrest_rate FROM ledger GROUP BY country_name, violation;",
    "Which country has the most stops with search conducted?" := "SELECT country_name, COUNT(*) AS search_stops FROM ledger WHERE search_conducted = TRUE GROUP BY country_name ORDER BY search_stops DESC;",
    "Yearly Breakdown of Stops and Arrests by Country" := "SELECT country_name, YEAR(STR_TO_DATE(stop_date, '%Y-%m-%d')) AS year, COUNT(*) AS total_stops, SUM(CASE WHEN is_arrested = TRUE THEN 1 ELSE 0 END) AS arrests, RANK() OVER (PARTITION BY country_name ORDER BY YEAR(STR_TO_DATE(stop_date, '%Y-%m-%d'))) AS year_rank FROM ledger GROUP BY country_name, year;",
    "Driver Violation Trends Based on Age and Race" := "SELECT driver_age, driver_race, violation, COUNT(*) AS total FROM ( SELECT driver_age, driver_race, violation FROM ledger WHERE driver_age IS NOT NULL AND driver_race IS NOT NULL) AS sub GROUP BY driver_age, driver_race, violation ORDER BY total DESC;",
    "Time Period Analysis of Stops (Year, Month, Hour)" := "SELECT YEAR(STR_TO_DATE(stop_date, '%Y-%m-%d')) AS year, MONTH(STR_TO_DATE(stop_date, '%Y-%m-%d')) AS month, HOUR(STR_TO_DATE(stop_time, '%H:%i:%s')) AS hour, COUNT(*) AS stop_count FROM ledger GROUP BY year, month, hour ORDER BY year, month, hour;",
    "Violations with High Search and Arrest Rates" := "SELECT violation, COUNT(*) AS total, SUM(CASE WHEN search_conducted = TRUE THEN 1 ELSE 0 END) AS searches, SUM(CASE WHEN is_arrested = TRUE THEN 1 ELSE 0 END) AS arrests, RANK() OVER (ORDER BY SUM(CASE WHEN search_conducted = TRUE THEN 1 ELSE 0 END) DESC) AS search_rank, RANK() OVER (ORDER BY SUM(CASE WHEN is_arrested = TRUE THEN 1 ELSE 0 END) DESC) AS arrest_rank FROM ledger GROUP BY violation;",
    "Driver Demographics by Country (Age, Gender, and Race)" := "SELECT country_name, driver_age, driver_gender, driver_race, COUNT(*) AS count FROM ledger GROUP BY country_name, driver_age, driver_gender, driver_race;",
    "Top 5 Violations with Highest Arrest Rates" := "SELECT violation, COUNT(*) AS total, SUM(CASE WHEN is_arrested = TRUE THEN 1 ELSE 0 END) AS arrests, ROUND(SUM(CASE WHEN is_arrested = TRUE THEN 1 ELSE 0 END) * 100.0 / COUNT(*), 2) AS arrest_rate FROM ledger GROUP BY violation ORDER BY arrest_rate DESC LIMIT 5;"
  ]

  /** The result of looking a report name up in the catalog. */
  datatype Lookup = Found(template: string) | UnknownReport(name: string)

  /** The query text of a report, or `UnknownReport` for a name the catalog
      does not hold (where a plain dictionary lookup would raise). */
  function GetTemplate(name: string): (r: Lookup)
    ensures r.Found? <==> name in QueryMap
    ensures r.Found? ==> r.template == QueryMap[name]
    ensures r.UnknownReport? ==> r.name == name
  {
    if name in QueryMap then Found(QueryMap[name]) else UnknownReport(name)
  }

  /** Every name the select box offers is a key of the catalog, and every key
      is offered: the menu and the map agree exactly. */
  lemma MenuMatchesCatalog()
    ensures forall name :: name in ReportMenu <==> name in QueryMap
  {
  }

  /** Whatever the user selects, the lookup finds a non-empty query text. */
  lemma SelectedReportResolves(name: string)
    requires name in ReportMenu
    ensures GetTemplate(name).Found? && |GetTemplate(name).template| > 0
  {
    MenuMatchesCatalog();
  }

  /** A name outside the catalog is reported as unknown, not answered with an
      empty query. */
  lemma NonexistentReportIsUnknown()
    ensures GetTemplate("nonexistent report") == UnknownReport("nonexistent report")
  {
  }
}
